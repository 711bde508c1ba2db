/** Replicas of Service driving one job through a shared store with lagging cursors (pkg/cron/service.go). */
module CronReplicas {
  import opened Wrappers
  import opened CronTime
  import opened CronStore
  import opened CronCatchUp
  import opened CronRuns
  import S = CronSchedule

  /** One running Service, as far as one job is concerned: its runtimeJob and the work its cycle still has to issue. */
  datatype Replica = Replica(schedule: S.Schedule, policy: CatchUpPolicy, cursor: Instant, startup: bool,
                             expired: seq<Record>, pending: seq<Decision>)

  datatype System = System(store: Store, replicas: map<nat, Replica>)

  /** The clock reading, lease owner, fresh token and lease duration behind one request. */
  datatype Stamp = Stamp(clock: Instant, owner: string, token: string, lease: int)

  datatype Action =
    | Boot(replica: nat, definitions: seq<JobDefinition>, now: Instant)
    | FetchExpired(replica: nat, now: Instant, records: seq<Record>)
    | Recover(replica: nat, stamp: Stamp)
    | Gather(replica: nat, now: Instant, limit: nat)
    | Issue(replica: nat, stamp: Stamp)
    | Crash(replica: nat)
    | WorkerRenews(renewal: Renewal)
    | WorkerCompletes(completion: Completion)
    | ClaimElsewhere(claim: ClaimRequest)
    | SkipElsewhere(skip: SkipRequest)

  /** The job whose history is followed, and the platform it runs on. */
  datatype Subject = Subject(world: World, job: string)

  function ClaimFor(job: string, due: Due, stamp: Stamp): ClaimRequest {
    ClaimRequest(OccurrenceOf(job, due.scheduledAt), job, due.scheduledAt, due.nextRunAt,
                 stamp.owner, stamp.token, stamp.clock, stamp.clock + stamp.lease)
  }

  function SkipFor(job: string, due: Due, stamp: Stamp, reason: string): SkipRequest {
    SkipRequest(OccurrenceOf(job, due.scheduledAt), job, due.scheduledAt, due.nextRunAt, stamp.clock, reason)
  }

  function Stop(sys: System, replica: nat): System {
    sys.(replicas := sys.replicas - {replica})
  }

  /** Service.reconcile: on success the replica starts from the reconciled cursor. */
  function BootSpec(subject: Subject, sys: System, id: nat, definitions: seq<JobDefinition>, now: Instant): System {
    var (store, error) := ReconcileSpec(subject.world, sys.store, definitions, now);
    var stopped := Stop(sys, id).(store := store);
    if error.Some? || subject.job !in store.jobs || store.jobs[subject.job].nextRunAt == 0 then stopped
    else
      var state := store.jobs[subject.job];
      match S.ScheduleFromDefinition(subject.world, state.definition.schedule)
      case Failure(_) => stopped
      case Success(schedule) =>
        stopped.(replicas := stopped.replicas[id :=
          Replica(schedule, state.definition.catchUp, state.nextRunAt, true, [], [])])
  }

  /** claimAndRun's effect on the store and on the replica's cursor; an error stops the service. */
  function ClaimAndAdvance(subject: Subject, sys: System, id: nat, due: Due, stamp: Stamp, then_: Replica)
    : (System, Option<StoreError>)
  {
    var (store, r) := ClaimSpec(subject.world, sys.store, ClaimFor(subject.job, due, stamp));
    match r
    case Failure(error) => (Stop(sys, id).(store := store), Some(error))
    case Success(_) =>
      var cursor := if then_.cursor < due.nextRunAt then due.nextRunAt else then_.cursor;
      (System(store, sys.replicas[id := then_.(cursor := cursor)]), None)
  }

  function SkipAndAdvance(subject: Subject, sys: System, id: nat, due: Due, stamp: Stamp, reason: string, then_: Replica)
    : (System, Option<StoreError>)
  {
    var (store, error) := SkipSpec(subject.world, sys.store, SkipFor(subject.job, due, stamp, reason));
    if error.Some? then (Stop(sys, id).(store := store), error)
    else (System(store, sys.replicas[id := then_.(cursor := due.nextRunAt)]), None)
  }

  /** The service lists its job's expired occurrences at the start of a cycle. */
  function FetchSpec(subject: Subject, sys: System, id: nat, now: Instant, records: seq<Record>): System {
    if id in sys.replicas && sys.replicas[id].expired == [] && sys.replicas[id].pending == []
       && (forall r | r in records :: r.jobName == subject.job && Abandoned(sys.store, r.id, now)
                                      && sys.store.occurrences[r.id] == r)
    then sys.(replicas := sys.replicas[id := sys.replicas[id].(expired := records)])
    else sys
  }

  /** recoverExpired's next claim. */
  function RecoverSpec(subject: Subject, sys: System, id: nat, stamp: Stamp): (System, Option<StoreError>)
    requires id in sys.replicas && sys.replicas[id].expired != []
  {
    var replica := sys.replicas[id];
    var at := replica.expired[0].scheduledAt;
    match S.Next(subject.world, replica.schedule, at)
    case Failure(_) => (Stop(sys, id), None)
    case Success(next) =>
      ClaimAndAdvance(subject, sys, id, Due(at, next), stamp, replica.(expired := replica.expired[1..]))
  }

  /** The cycle collects what is due and decides what to run. */
  function GatherSpec(subject: Subject, sys: System, id: nat, now: Instant, limit: nat): System {
    if id in sys.replicas && sys.replicas[id].expired == [] && sys.replicas[id].pending == [] then
      var replica := sys.replicas[id];
      match Collect(subject.world, replica.schedule, replica.cursor, now, limit)
      case Failure(_) => Stop(sys, id)
      case Success((due, more)) =>
        var decided := Decide(replica.policy, due, replica.startup, more);
        sys.(replicas := sys.replicas[id := replica.(pending := decided, startup := replica.startup && more)])
    else sys
  }

  /** The cycle's next decision, carried out. */
  function IssueSpec(subject: Subject, sys: System, id: nat, stamp: Stamp): (System, Option<StoreError>)
    requires id in sys.replicas && sys.replicas[id].pending != []
  {
    var replica := sys.replicas[id];
    var rest := replica.(pending := replica.pending[1..]);
    match replica.pending[0]
    case Run(due) => ClaimAndAdvance(subject, sys, id, due, stamp, rest)
    case Skip(due, reason) => SkipAndAdvance(subject, sys, id, due, stamp, reason, rest)
  }

  /** A worker's renewal or completion, or another job's claim or skip. */
  function ElsewhereStore(subject: Subject, s: Store, action: Action): Store
    requires action.WorkerRenews? || action.WorkerCompletes? || action.ClaimElsewhere? || action.SkipElsewhere?
  {
    match action
    case WorkerRenews(q) => RenewSpec(s, q).0
    case WorkerCompletes(q) => CompleteSpec(s, q).0
    case ClaimElsewhere(q) => if q.jobName == subject.job then s else ClaimSpec(subject.world, s, q).0
    case SkipElsewhere(q) => if q.jobName == subject.job then s else SkipSpec(subject.world, s, q).0
  }

  /** One atomic step; a step that is not enabled changes nothing. */
  function Perform(subject: Subject, sys: System, action: Action): (System, Option<StoreError>) {
    match action
    case Boot(id, definitions, now) => (BootSpec(subject, sys, id, definitions, now), None)
    case FetchExpired(id, now, records) => (FetchSpec(subject, sys, id, now, records), None)
    case Recover(id, stamp) =>
      if id in sys.replicas && sys.replicas[id].expired != [] then RecoverSpec(subject, sys, id, stamp) else (sys, None)
    case Gather(id, now, limit) => (GatherSpec(subject, sys, id, now, limit), None)
    case Issue(id, stamp) =>
      if id in sys.replicas && sys.replicas[id].pending != [] then IssueSpec(subject, sys, id, stamp) else (sys, None)
    case Crash(id) => (Stop(sys, id), None)
    case _ => (sys.(store := ElsewhereStore(subject, sys.store, action)), None)
  }

  /** No job, no record, no replica. */
  const NOTHING := System(EMPTY, map[])

  /** The system after the first k actions of a run that starts from an empty store. */
  function SystemAt(subject: Subject, actions: seq<Action>, k: nat): System
    requires k <= |actions|
  {
    if k == 0 then NOTHING else Perform(subject, SystemAt(subject, actions, k - 1), actions[k - 1]).0
  }

  // ---- The orbit of a schedule ----

  /** A schedule followed from its first instant: Next applied i times. */
  datatype Orbit = Orbit(world: World, definition: S.ScheduleDefinition, start: Instant) {
    function At(i: nat): Option<Instant> {
      if i == 0 then Some(start)
      else match At(i - 1) case None => None case Some(t) => NextRun(world, definition, t)
    }

    /** The first n steps exist and go strictly forward. */
    ghost predicate Ascends(n: nat) {
      forall i: nat | i <= n :: At(i).Some? && (i < n ==> At(i + 1).Some? && At(i).value < At(i + 1).value)
    }

    ghost predicate Visits(n: nat, t: Instant) {
      exists i: nat :: i < n && At(i) == Some(t)
    }

    lemma {:induction false} Monotone(n: nat, i: nat, j: nat)
      requires Ascends(n) && i <= j <= n
      ensures At(i).value <= At(j).value
      ensures i < j ==> At(i).value < At(j).value
      decreases j
    {
      hide At;
      assert At(i).Some?;
      if i < j {
        Monotone(n, i, j - 1);
        assert At(j - 1).value < At(j - 1 + 1).value;
      }
    }
  }

  ghost predicate Keeps(s: Store, job: string, definition: S.ScheduleDefinition) {
    job in s.jobs && s.jobs[job].definition.schedule == definition
  }

  /** Exactly the first n instants of the orbit are recorded, and the durable cursor is the n-th. */
  ghost predicate Gapless(job: string, orbit: Orbit, s: Store, n: nat) {
    && WellKept(s) && Keeps(s, job, orbit.definition)
    && orbit.Ascends(n) && orbit.At(n) == Some(s.jobs[job].nextRunAt) && s.jobs[job].nextRunAt != 0
    && forall t :: OccurrenceOf(job, t) in s.occurrences <==> orbit.Visits(n, t)
  }

  /** The replica's cursor is on the orbit, at or before its n-th instant. */
  ghost predicate CursorOnOrbit(orbit: Orbit, replica: Replica, n: nat) {
    exists m: nat :: m <= n && orbit.At(m) == Some(replica.cursor)
  }

  /** The pending decisions continue the orbit from the cursor. */
  predicate Continues(orbit: Orbit, from: Instant, pending: seq<Decision>)
    decreases |pending|
  {
    pending == [] ||
    (&& pending[0].due.scheduledAt == from
     && NextRun(orbit.world, orbit.definition, from) == Some(pending[0].due.nextRunAt)
     && Continues(orbit, pending[0].due.nextRunAt, pending[1..]))
  }

  ghost predicate ReplicaAgrees(job: string, orbit: Orbit, s: Store, replica: Replica, n: nat) {
    && S.ScheduleFromDefinition(orbit.world, orbit.definition) == Success(replica.schedule)
    && CursorOnOrbit(orbit, replica, n)
    && Continues(orbit, replica.cursor, replica.pending)
    && (replica.expired != [] ==> replica.pending == [])
    && forall r | r in replica.expired :: OccurrenceOf(job, r.scheduledAt) in s.occurrences
  }

  ghost predicate Agrees(subject: Subject, orbit: Orbit, sys: System, n: nat) {
    && orbit.world == subject.world
    && Gapless(subject.job, orbit, sys.store, n)
    && forall id | id in sys.replicas :: ReplicaAgrees(subject.job, orbit, sys.store, sys.replicas[id], n)
  }

  /** The job is not registered, and it has no record and no replica. */
  ghost predicate Unknown(job: string, sys: System) {
    && WellKept(sys.store) && job !in sys.store.jobs && sys.replicas == map[]
    && forall t :: OccurrenceOf(job, t) !in sys.store.occurrences
  }

  /** The `first` action is the first that registers the job; its cursor then starts the orbit, and it keeps its schedule. */
  ghost predicate Registered(subject: Subject, orbit: Orbit, actions: seq<Action>, first: nat, k: nat) {
    && first < k <= |actions| && orbit.world == subject.world
    && (forall i | 0 <= i <= first :: subject.job !in SystemAt(subject, actions, i).store.jobs)
    && (forall i | first < i <= k :: Keeps(SystemAt(subject, actions, i).store, subject.job, orbit.definition))
    && SystemAt(subject, actions, first + 1).store.jobs[subject.job].nextRunAt == orbit.start != 0
  }

  // ---- What a claim or skip of an orbit instant does ----

  /** What a request for one instant of a job did to the store. */
  ghost predicate Requested(s: Store, s': Store, job: string, due: Due, failed: Option<StoreError>) {
    var id := OccurrenceOf(job, due.scheduledAt);
    && job in s.jobs && job in s'.jobs && s'.jobs[job].definition == s.jobs[job].definition
    && WellKept(s') && failed != Some(OccurrenceConflict) && failed != Some(JobNotFound)
    && s'.occurrences.Keys == s.occurrences.Keys + (if failed.None? then {id} else {})
    && (failed.Some? || (id in s.occurrences && s'.jobs[job].nextRunAt == s.jobs[job].nextRunAt)
        || (due.scheduledAt < due.nextRunAt && due.nextRunAt != 0 && s'.jobs[job].nextRunAt ==
              if s.jobs[job].nextRunAt < due.nextRunAt then due.nextRunAt else s.jobs[job].nextRunAt))
    && (failed.Some? ==> s' == s)
  }

  function Problem<T>(r: Result<T, StoreError>): Option<StoreError> {
    if r.Failure? then Some(r.error) else None
  }

  lemma ClaimExistingIsRequested(s: Store, job: string, due: Due, stamp: Stamp)
    requires WellKept(s) && job in s.jobs && OccurrenceOf(job, due.scheduledAt) in s.occurrences
    requires due.scheduledAt < due.nextRunAt && due.nextRunAt != 0
    requires WellKept(ClaimExisting(s, ClaimFor(job, due, stamp)).0)
    ensures var (s', r) := ClaimExisting(s, ClaimFor(job, due, stamp));
            Requested(s, s', job, due, Problem(r))
  {
    IdentityNeverConflicts(s, job, due.scheduledAt);
    hide DurablyAfter, LiveOverlap, WellKept;
  }

  lemma ClaimNewIsRequested(s: Store, job: string, due: Due, stamp: Stamp)
    requires WellKept(s) && job in s.jobs && OccurrenceOf(job, due.scheduledAt) !in s.occurrences
    requires due.scheduledAt < due.nextRunAt && due.nextRunAt != 0 && s.jobs[job].nextRunAt == due.scheduledAt
    requires WellKept(ClaimNew(s, ClaimFor(job, due, stamp)).0)
    ensures var (s', r) := ClaimNew(s, ClaimFor(job, due, stamp));
            Requested(s, s', job, due, Problem(r))
  {
    hide DurablyAfter, LiveOverlap, WellKept;
  }

  lemma ClaimIsRequested(world: World, s: Store, job: string, due: Due, stamp: Stamp)
    requires WellKept(s) && job in s.jobs
    requires NextRun(world, s.jobs[job].definition.schedule, due.scheduledAt) == Some(due.nextRunAt)
    requires OccurrenceOf(job, due.scheduledAt) in s.occurrences || s.jobs[job].nextRunAt == due.scheduledAt
    ensures var (s', r) := ClaimSpec(world, s, ClaimFor(job, due, stamp));
            Requested(s, s', job, due, Problem(r))
  {
    var q := ClaimFor(job, due, stamp);
    ClaimKeepsWellKept(world, s, q);
    hide NextRun, DurablyAfter, ClaimExisting, ClaimNew, WellKept;
    if ValidateClaim(q).None? {
      if q.occurrenceId in s.occurrences {
        ClaimExistingIsRequested(s, job, due, stamp);
      } else {
        ClaimNewIsRequested(s, job, due, stamp);
      }
    }
  }

  lemma SkipIsRequested(world: World, s: Store, job: string, due: Due, stamp: Stamp, reason: string)
    requires WellKept(s) && job in s.jobs
    requires NextRun(world, s.jobs[job].definition.schedule, due.scheduledAt) == Some(due.nextRunAt)
    requires OccurrenceOf(job, due.scheduledAt) in s.occurrences || s.jobs[job].nextRunAt == due.scheduledAt
    ensures var (s', error) := SkipSpec(world, s, SkipFor(job, due, stamp, reason));
            Requested(s, s', job, due, error)
  {
    var q := SkipFor(job, due, stamp, reason);
    SkipKeepsWellKept(world, s, q);
    if q.occurrenceId in s.occurrences {
      IdentityNeverConflicts(s, job, due.scheduledAt);
    }
    hide NextRun, DurablyAfter, WellKept;
  }

  lemma GaplessKept(job: string, orbit: Orbit, s: Store, s': Store, n: nat)
    requires Gapless(job, orbit, s, n) && WellKept(s') && Keeps(s', job, orbit.definition)
    requires s'.jobs[job].nextRunAt == s.jobs[job].nextRunAt
    requires forall t :: OccurrenceOf(job, t) in s'.occurrences <==> OccurrenceOf(job, t) in s.occurrences
    ensures Gapless(job, orbit, s', n)
  {
  }

  lemma GaplessGrows(job: string, orbit: Orbit, s: Store, s': Store, n: nat)
    requires Gapless(job, orbit, s, n) && WellKept(s') && Keeps(s', job, orbit.definition)
    requires orbit.At(n + 1) == Some(s'.jobs[job].nextRunAt) && s'.jobs[job].nextRunAt != 0
    requires s.jobs[job].nextRunAt < s'.jobs[job].nextRunAt
    requires s'.occurrences.Keys == s.occurrences.Keys + {OccurrenceOf(job, s.jobs[job].nextRunAt)}
    ensures Gapless(job, orbit, s', n + 1)
  {
    hide orbit.At, WellKept;
    forall t
      ensures OccurrenceOf(job, t) in s'.occurrences <==> orbit.Visits(n + 1, t)
    {
      if OccurrenceOf(job, t) in s.occurrences {
        var i: nat :| i < n && orbit.At(i) == Some(t);
      } else if OccurrenceOf(job, t) in s'.occurrences {
        assert orbit.At(n) == Some(t);
      }
    }
  }

  lemma FirstUnrecorded(job: string, orbit: Orbit, s: Store, n: nat)
    requires Gapless(job, orbit, s, n)
    ensures OccurrenceOf(job, s.jobs[job].nextRunAt) !in s.occurrences
  {
    hide orbit.At, WellKept;
    var t := s.jobs[job].nextRunAt;
    if orbit.Visits(n, t) {
      var i: nat :| i < n && orbit.At(i) == Some(t);
      orbit.Monotone(n, i, n);
    }
  }

  /** How many instants are recorded after a request for the i-th succeeded or failed. */
  function Grown(n: nat, i: nat, failed: bool): nat {
    if !failed && i == n then n + 1 else n
  }

  // A request for the i-th instant of the orbit, i <= n, keeps the record gapless.
  lemma RequestKeepsGapless(job: string, orbit: Orbit, s: Store, s': Store, n: nat, i: nat, due: Due,
                            failed: Option<StoreError>)
    requires Gapless(job, orbit, s, n) && i <= n && orbit.At(i) == Some(due.scheduledAt)
    requires orbit.At(i + 1) == Some(due.nextRunAt) && Requested(s, s', job, due, failed)
    ensures Gapless(job, orbit, s', Grown(n, i, failed.Some?))
    ensures s.occurrences.Keys <= s'.occurrences.Keys
  {
    hide orbit.At, WellKept;
    if failed.None? {
      if i == n {
        FirstUnrecorded(job, orbit, s, n);
        GaplessGrows(job, orbit, s, s', n);
      } else {
        assert orbit.Visits(n, due.scheduledAt);
        orbit.Monotone(n, i + 1, n);
        assert s'.occurrences.Keys == s.occurrences.Keys;
        GaplessKept(job, orbit, s, s', n);
      }
    }
  }

  lemma DueIsKnown(job: string, orbit: Orbit, s: Store, n: nat, i: nat)
    requires Gapless(job, orbit, s, n) && i <= n
    ensures orbit.At(i).Some?
    ensures OccurrenceOf(job, orbit.At(i).value) in s.occurrences || s.jobs[job].nextRunAt == orbit.At(i).value
  {
    hide orbit.At, WellKept;
    if i < n {
      assert orbit.Visits(n, orbit.At(i).value);
    }
  }

  // ---- What the other steps do ----

  lemma {:induction false} ReconcileKeepsCursor(world: World, jobs: map<string, JobState>,
                                                definitions: seq<JobDefinition>, now: Instant, job: string)
    requires ReconcileAll(world, jobs, definitions, now).Success? && job in jobs && jobs[job].nextRunAt != 0
    ensures var active := ReconcileAll(world, jobs, definitions, now).value;
            job in active && active[job].definition.schedule == jobs[job].definition.schedule ==>
              active[job].nextRunAt == jobs[job].nextRunAt
  {
    hide NormalizedDefinition, PreserveIntervalAnchor, S.Next;
    if definitions != [] {
      ReconcileKeepsCursor(world, jobs, definitions[..|definitions| - 1], now, job);
    }
  }

  lemma ReconcileKeepsGapless(subject: Subject, orbit: Orbit, s: Store, n: nat, definitions: seq<JobDefinition>, now: Instant)
    requires Gapless(subject.job, orbit, s, n)
    requires Keeps(ReconcileSpec(subject.world, s, definitions, now).0, subject.job, orbit.definition)
    ensures Gapless(subject.job, orbit, ReconcileSpec(subject.world, s, definitions, now).0, n)
    ensures ReconcileSpec(subject.world, s, definitions, now).0.occurrences == s.occurrences
  {
    var s' := ReconcileSpec(subject.world, s, definitions, now).0;
    ApplyKeepsWellKept(subject.world, s, Reconcile(definitions, now));
    if ReconcileAll(subject.world, s.jobs, definitions, now).Success? {
      ReconcileKeepsCursor(subject.world, s.jobs, definitions, now, subject.job);
    }
    hide WellKept, orbit.At, ReconcileAll;
    GaplessKept(subject.job, orbit, s, s', n);
  }

  /** Nothing about the followed job changed, and no record went away. */
  ghost predicate Untouched(job: string, s: Store, s': Store) {
    && WellKept(s') && job in s.jobs && job in s'.jobs && s'.jobs[job] == s.jobs[job]
    && s.occurrences.Keys <= s'.occurrences.Keys
    && forall t :: OccurrenceOf(job, t) in s'.occurrences <==> OccurrenceOf(job, t) in s.occurrences
  }

  lemma ClaimElsewhereTouchesNothing(subject: Subject, s: Store, q: ClaimRequest)
    requires WellKept(s) && subject.job in s.jobs && q.jobName != subject.job
    ensures Untouched(subject.job, s, ClaimSpec(subject.world, s, q).0)
  {
    ClaimKeepsWellKept(subject.world, s, q);
    hide WellKept, ValidateScheduleAdvance, DurablyAfter, LiveOverlap;
  }

  lemma SkipElsewhereTouchesNothing(subject: Subject, s: Store, q: SkipRequest)
    requires WellKept(s) && subject.job in s.jobs && q.jobName != subject.job
    ensures Untouched(subject.job, s, SkipSpec(subject.world, s, q).0)
  {
    SkipKeepsWellKept(subject.world, s, q);
    hide WellKept, ValidateScheduleAdvance, DurablyAfter;
  }

  lemma ElsewhereTouchesNothing(subject: Subject, s: Store, action: Action)
    requires action.WorkerRenews? || action.WorkerCompletes? || action.ClaimElsewhere? || action.SkipElsewhere?
    requires WellKept(s) && subject.job in s.jobs
    ensures Untouched(subject.job, s, ElsewhereStore(subject, s, action))
  {
    match action {
      case WorkerRenews(q) => ApplyKeepsWellKept(subject.world, s, Renew(q));
      case WorkerCompletes(q) => ApplyKeepsWellKept(subject.world, s, Complete(q));
      case ClaimElsewhere(q) => if q.jobName != subject.job { ClaimElsewhereTouchesNothing(subject, s, q); }
      case SkipElsewhere(q) => if q.jobName != subject.job { SkipElsewhereTouchesNothing(subject, s, q); }
    }
    hide WellKept, ClaimSpec, SkipSpec, DurablyAfter;
  }

  lemma ElsewhereKeepsGapless(subject: Subject, orbit: Orbit, s: Store, n: nat, action: Action)
    requires action.WorkerRenews? || action.WorkerCompletes? || action.ClaimElsewhere? || action.SkipElsewhere?
    requires Gapless(subject.job, orbit, s, n)
    ensures Gapless(subject.job, orbit, ElsewhereStore(subject, s, action), n)
    ensures s.occurrences.Keys <= ElsewhereStore(subject, s, action).occurrences.Keys
  {
    hide ElsewhereStore, WellKept, orbit.At;
    ElsewhereTouchesNothing(subject, s, action);
    GaplessKept(subject.job, orbit, s, ElsewhereStore(subject, s, action), n);
  }

  // ---- What every step keeps about the replicas ----

  lemma StillAgrees(job: string, orbit: Orbit, s: Store, s': Store, replica: Replica, n: nat, n': nat)
    requires ReplicaAgrees(job, orbit, s, replica, n) && n <= n' && s.occurrences.Keys <= s'.occurrences.Keys
    ensures ReplicaAgrees(job, orbit, s', replica, n')
  {
    hide orbit.At, Continues;
  }

  lemma AllStillAgree(subject: Subject, orbit: Orbit, sys: System, sys': System, n: nat, n': nat)
    requires Agrees(subject, orbit, sys, n) && Gapless(subject.job, orbit, sys'.store, n') && n <= n'
    requires sys.store.occurrences.Keys <= sys'.store.occurrences.Keys
    requires forall id | id in sys'.replicas ::
               (id in sys.replicas && sys'.replicas[id] == sys.replicas[id])
               || ReplicaAgrees(subject.job, orbit, sys'.store, sys'.replicas[id], n')
    ensures Agrees(subject, orbit, sys', n')
  {
    hide Gapless, ReplicaAgrees;
    forall id | id in sys'.replicas
      ensures ReplicaAgrees(subject.job, orbit, sys'.store, sys'.replicas[id], n')
    {
      if id in sys.replicas && sys'.replicas[id] == sys.replicas[id] {
        StillAgrees(subject.job, orbit, sys.store, sys'.store, sys.replicas[id], n, n');
      }
    }
  }

  lemma {:induction false} CollectedContinues(orbit: Orbit, schedule: S.Schedule, next: Instant, now: Instant, limit: nat,
                                              decisions: seq<Decision>)
    requires S.ScheduleFromDefinition(orbit.world, orbit.definition) == Success(schedule)
    requires Collect(orbit.world, schedule, next, now, limit).Success?
    requires var due := Collect(orbit.world, schedule, next, now, limit).value.0;
             |decisions| == |due| && forall i | 0 <= i < |due| :: decisions[i].due == due[i]
    ensures Continues(orbit, next, decisions)
    decreases limit
  {
    hide S.Next, S.ScheduleFromDefinition;
    if decisions != [] {
      CollectedContinues(orbit, schedule, decisions[0].due.nextRunAt, now, limit - 1, decisions[1..]);
    }
  }

  /** What a replica must look like for its next request to be for the i-th instant of the orbit. */
  ghost predicate ReadyToRequest(job: string, orbit: Orbit, s: Store, then_: Replica, n: nat, i: nat, due: Due) {
    && i <= n && orbit.At(i) == Some(due.scheduledAt)
    && NextRun(orbit.world, orbit.definition, due.scheduledAt) == Some(due.nextRunAt)
    && S.ScheduleFromDefinition(orbit.world, orbit.definition) == Success(then_.schedule)
    && CursorOnOrbit(orbit, then_, n)
    && (then_.pending == [] || (then_.cursor == due.scheduledAt && Continues(orbit, due.nextRunAt, then_.pending)))
    && (then_.expired != [] ==> then_.pending == [])
    && forall r | r in then_.expired :: OccurrenceOf(job, r.scheduledAt) in s.occurrences
  }

  lemma AdvancedReplicaAgrees(job: string, orbit: Orbit, s: Store, s': Store, then_: Replica, n: nat, i: nat, due: Due,
                              cursor: Instant)
    requires ReadyToRequest(job, orbit, s, then_, n, i, due) && s.occurrences.Keys <= s'.occurrences.Keys
    requires cursor == due.nextRunAt || (cursor == then_.cursor && then_.pending == [])
    ensures ReplicaAgrees(job, orbit, s', then_.(cursor := cursor), Grown(n, i, false))
  {
    hide S.ScheduleFromDefinition, NextRun;
    if cursor == due.nextRunAt {
      assert orbit.At(i + 1) == Some(cursor);
    }
  }

  /** The store after a request for the i-th instant, and what the caller learns. */
  ghost predicate Lawful(job: string, orbit: Orbit, s: Store, s': Store, n: nat, i: nat, failed: Option<StoreError>) {
    && Gapless(job, orbit, s', Grown(n, i, failed.Some?)) && s.occurrences.Keys <= s'.occurrences.Keys
    && failed != Some(OccurrenceConflict) && failed != Some(JobNotFound)
  }

  lemma ClaimIsLawful(subject: Subject, orbit: Orbit, s: Store, n: nat, i: nat, due: Due, stamp: Stamp)
    requires orbit.world == subject.world && Gapless(subject.job, orbit, s, n)
    requires i <= n && orbit.At(i) == Some(due.scheduledAt)
    requires NextRun(orbit.world, orbit.definition, due.scheduledAt) == Some(due.nextRunAt)
    ensures var (s', r) := ClaimSpec(subject.world, s, ClaimFor(subject.job, due, stamp));
            && Lawful(subject.job, orbit, s, s', n, i, Problem(r))
            && (r.Success? ==> due.scheduledAt < due.nextRunAt)
  {
    DueIsKnown(subject.job, orbit, s, n, i);
    ClaimIsRequested(subject.world, s, subject.job, due, stamp);
    assert orbit.At(i + 1) == Some(due.nextRunAt);
    var (s', r) := ClaimSpec(subject.world, s, ClaimFor(subject.job, due, stamp));
    if r.Success? {
      ClaimGoesForward(subject.world, s, ClaimFor(subject.job, due, stamp));
    }
    hide ClaimSpec, orbit.At, WellKept;
    RequestKeepsGapless(subject.job, orbit, s, s', n, i, due, Problem(r));
  }

  lemma SkipIsLawful(subject: Subject, orbit: Orbit, s: Store, n: nat, i: nat, due: Due, stamp: Stamp, reason: string)
    requires orbit.world == subject.world && Gapless(subject.job, orbit, s, n)
    requires i <= n && orbit.At(i) == Some(due.scheduledAt)
    requires NextRun(orbit.world, orbit.definition, due.scheduledAt) == Some(due.nextRunAt)
    ensures var (s', error) := SkipSpec(subject.world, s, SkipFor(subject.job, due, stamp, reason));
            Lawful(subject.job, orbit, s, s', n, i, error)
  {
    DueIsKnown(subject.job, orbit, s, n, i);
    SkipIsRequested(subject.world, s, subject.job, due, stamp, reason);
    assert orbit.At(i + 1) == Some(due.nextRunAt);
    var (s', error) := SkipSpec(subject.world, s, SkipFor(subject.job, due, stamp, reason));
    hide SkipSpec, orbit.At, WellKept;
    RequestKeepsGapless(subject.job, orbit, s, s', n, i, due, error);
  }

  lemma ClaimGoesForward(world: World, s: Store, q: ClaimRequest)
    requires ClaimSpec(world, s, q).1.Success?
    ensures q.scheduledAt < q.nextRunAt
  {
    hide ValidateScheduleAdvance, ClaimExisting, ClaimNew, DurablyAfter;
  }

  lemma ClaimAgrees(subject: Subject, orbit: Orbit, sys: System, n: nat, i: nat, id: nat, due: Due, stamp: Stamp,
                    then_: Replica) returns (n': nat)
    requires Agrees(subject, orbit, sys, n) && ReadyToRequest(subject.job, orbit, sys.store, then_, n, i, due)
    ensures var (sys', error) := ClaimAndAdvance(subject, sys, id, due, stamp, then_);
            && n <= n' && Agrees(subject, orbit, sys', n')
            && error != Some(OccurrenceConflict) && error != Some(JobNotFound)
  {
    var (s', r) := ClaimSpec(subject.world, sys.store, ClaimFor(subject.job, due, stamp));
    ClaimIsLawful(subject, orbit, sys.store, n, i, due, stamp);
    n' := Grown(n, i, r.Failure?);
    if r.Success? {
      var cursor := if then_.cursor < due.nextRunAt then due.nextRunAt else then_.cursor;
      AdvancedReplicaAgrees(subject.job, orbit, sys.store, s', then_, n, i, due, cursor);
    }
    hide ClaimSpec, Gapless, ReplicaAgrees, ReadyToRequest;
    AllStillAgree(subject, orbit, sys, ClaimAndAdvance(subject, sys, id, due, stamp, then_).0, n, n');
  }

  lemma SkipAgrees(subject: Subject, orbit: Orbit, sys: System, n: nat, i: nat, id: nat, due: Due, stamp: Stamp,
                   reason: string, then_: Replica) returns (n': nat)
    requires Agrees(subject, orbit, sys, n) && ReadyToRequest(subject.job, orbit, sys.store, then_, n, i, due)
    ensures var (sys', error) := SkipAndAdvance(subject, sys, id, due, stamp, reason, then_);
            && n <= n' && Agrees(subject, orbit, sys', n')
            && error != Some(OccurrenceConflict) && error != Some(JobNotFound)
  {
    var (s', error) := SkipSpec(subject.world, sys.store, SkipFor(subject.job, due, stamp, reason));
    SkipIsLawful(subject, orbit, sys.store, n, i, due, stamp, reason);
    n' := Grown(n, i, error.Some?);
    if error.None? {
      AdvancedReplicaAgrees(subject.job, orbit, sys.store, s', then_, n, i, due, due.nextRunAt);
    }
    hide SkipSpec, Gapless, ReplicaAgrees, ReadyToRequest;
    AllStillAgree(subject, orbit, sys, SkipAndAdvance(subject, sys, id, due, stamp, reason, then_).0, n, n');
  }

  // ---- Every step of every interleaving ----

  lemma BootAgrees(subject: Subject, orbit: Orbit, sys: System, n: nat, id: nat, definitions: seq<JobDefinition>, now: Instant)
    requires Agrees(subject, orbit, sys, n)
    requires Keeps(BootSpec(subject, sys, id, definitions, now).store, subject.job, orbit.definition)
    ensures Agrees(subject, orbit, BootSpec(subject, sys, id, definitions, now), n)
  {
    hide ReconcileSpec, orbit.At, WellKept;
    ReconcileKeepsGapless(subject, orbit, sys.store, n, definitions, now);
    AllStillAgree(subject, orbit, sys, BootSpec(subject, sys, id, definitions, now), n, n);
  }

  lemma RecoverAgrees(subject: Subject, orbit: Orbit, sys: System, n: nat, id: nat, stamp: Stamp) returns (n': nat)
    requires Agrees(subject, orbit, sys, n) && id in sys.replicas && sys.replicas[id].expired != []
    ensures var (sys', error) := RecoverSpec(subject, sys, id, stamp);
            && n <= n' && Agrees(subject, orbit, sys', n')
            && error != Some(OccurrenceConflict) && error != Some(JobNotFound)
  {
    var replica := sys.replicas[id];
    var record := replica.expired[0];
    assert record in replica.expired;
    var i: nat :| i < n && orbit.At(i) == Some(record.scheduledAt);
    n' := n;
    hide ClaimAndAdvance, orbit.At, Gapless;
    match S.Next(subject.world, replica.schedule, record.scheduledAt) {
      case Failure(_) => AllStillAgree(subject, orbit, sys, Stop(sys, id), n, n);
      case Success(next) =>
        n' := ClaimAgrees(subject, orbit, sys, n, i, id, Due(record.scheduledAt, next), stamp,
                          replica.(expired := replica.expired[1..]));
    }
  }

  lemma IssueIsReady(subject: Subject, orbit: Orbit, sys: System, n: nat, id: nat) returns (m: nat)
    requires Agrees(subject, orbit, sys, n) && id in sys.replicas && sys.replicas[id].pending != []
    ensures var replica := sys.replicas[id];
            ReadyToRequest(subject.job, orbit, sys.store, replica.(pending := replica.pending[1..]), n, m,
                           replica.pending[0].due)
  {
    hide orbit.At, Gapless, NextRun;
    var replica := sys.replicas[id];
    m :| m <= n && orbit.At(m) == Some(replica.cursor);
  }

  lemma IssueAgrees(subject: Subject, orbit: Orbit, sys: System, n: nat, id: nat, stamp: Stamp) returns (n': nat)
    requires Agrees(subject, orbit, sys, n) && id in sys.replicas && sys.replicas[id].pending != []
    ensures var (sys', error) := IssueSpec(subject, sys, id, stamp);
            && n <= n' && Agrees(subject, orbit, sys', n')
            && error != Some(OccurrenceConflict) && error != Some(JobNotFound)
  {
    var replica := sys.replicas[id];
    var due := replica.pending[0].due;
    var rest := replica.(pending := replica.pending[1..]);
    var m := IssueIsReady(subject, orbit, sys, n, id);
    hide ClaimAndAdvance, SkipAndAdvance, Agrees, ReadyToRequest;
    match replica.pending[0] {
      case Run(_) => n' := ClaimAgrees(subject, orbit, sys, n, m, id, due, stamp, rest);
      case Skip(_, reason) => n' := SkipAgrees(subject, orbit, sys, n, m, id, due, stamp, reason, rest);
    }
  }

  lemma GatherAgrees(subject: Subject, orbit: Orbit, sys: System, n: nat, id: nat, now: Instant, limit: nat)
    requires Agrees(subject, orbit, sys, n)
    ensures Agrees(subject, orbit, GatherSpec(subject, sys, id, now, limit), n)
  {
    if id in sys.replicas {
      var replica := sys.replicas[id];
      var collected := Collect(subject.world, replica.schedule, replica.cursor, now, limit);
      if collected.Success? {
        var decided := Decide(replica.policy, collected.value.0, replica.startup, collected.value.1);
        CollectedContinues(orbit, replica.schedule, replica.cursor, now, limit, decided);
      }
    }
    hide Collect, Decide, orbit.At, Gapless, Continues;
    AllStillAgree(subject, orbit, sys, GatherSpec(subject, sys, id, now, limit), n, n);
  }

  lemma FetchAgrees(subject: Subject, orbit: Orbit, sys: System, n: nat, id: nat, now: Instant, records: seq<Record>)
    requires Agrees(subject, orbit, sys, n)
    ensures Agrees(subject, orbit, FetchSpec(subject, sys, id, now, records), n)
  {
    var sys' := FetchSpec(subject, sys, id, now, records);
    if sys' != sys {
      forall r | r in records
        ensures OccurrenceOf(subject.job, r.scheduledAt) in sys.store.occurrences
      {
        assert WellKeptRecord(r.id, sys.store.occurrences[r.id]);
      }
    }
    hide orbit.At, Gapless;
    AllStillAgree(subject, orbit, sys, sys', n, n);
  }

  lemma StepAgrees(subject: Subject, orbit: Orbit, sys: System, action: Action, n: nat) returns (n': nat)
    requires Agrees(subject, orbit, sys, n)
    requires Keeps(Perform(subject, sys, action).0.store, subject.job, orbit.definition)
    ensures var (sys', error) := Perform(subject, sys, action);
            && n <= n' && Agrees(subject, orbit, sys', n')
            && error != Some(OccurrenceConflict) && error != Some(JobNotFound)
  {
    n' := n;
    var sys' := Perform(subject, sys, action).0;
    hide BootSpec, FetchSpec, RecoverSpec, GatherSpec, IssueSpec, ElsewhereStore, Gapless, ReplicaAgrees;
    match action {
      case Boot(id, definitions, now) => BootAgrees(subject, orbit, sys, n, id, definitions, now);
      case FetchExpired(id, now, records) => FetchAgrees(subject, orbit, sys, n, id, now, records);
      case Recover(id, stamp) =>
        if id in sys.replicas && sys.replicas[id].expired != [] { n' := RecoverAgrees(subject, orbit, sys, n, id, stamp); }
      case Gather(id, now, limit) => GatherAgrees(subject, orbit, sys, n, id, now, limit);
      case Issue(id, stamp) =>
        if id in sys.replicas && sys.replicas[id].pending != [] { n' := IssueAgrees(subject, orbit, sys, n, id, stamp); }
      case Crash(id) => AllStillAgree(subject, orbit, sys, sys', n, n);
      case _ =>
        ElsewhereKeepsGapless(subject, orbit, sys.store, n, action);
        AllStillAgree(subject, orbit, sys, sys', n, n);
    }
  }

  // ---- Before the job is registered, and its registration ----

  /** A step that leaves the job unregistered and without new records. */
  ghost predicate RecordsNothing(job: string, s: Store, s': Store) {
    && WellKept(s') && s'.jobs.Keys == s.jobs.Keys
    && forall t :: OccurrenceOf(job, t) in s'.occurrences ==> OccurrenceOf(job, t) in s.occurrences
  }

  lemma ClaimRecordsNothing(subject: Subject, s: Store, q: ClaimRequest)
    requires WellKept(s) && q.jobName != subject.job
    ensures RecordsNothing(subject.job, s, ClaimSpec(subject.world, s, q).0)
  {
    ClaimKeepsWellKept(subject.world, s, q);
    hide WellKept, ValidateScheduleAdvance, DurablyAfter, LiveOverlap;
  }

  lemma SkipRecordsNothing(subject: Subject, s: Store, q: SkipRequest)
    requires WellKept(s) && q.jobName != subject.job
    ensures RecordsNothing(subject.job, s, SkipSpec(subject.world, s, q).0)
  {
    SkipKeepsWellKept(subject.world, s, q);
    hide WellKept, ValidateScheduleAdvance, DurablyAfter;
  }

  lemma ElsewhereRecordsNothing(subject: Subject, s: Store, action: Action)
    requires action.WorkerRenews? || action.WorkerCompletes? || action.ClaimElsewhere? || action.SkipElsewhere?
    requires WellKept(s)
    ensures RecordsNothing(subject.job, s, ElsewhereStore(subject, s, action))
  {
    match action {
      case WorkerRenews(q) => ApplyKeepsWellKept(subject.world, s, Renew(q));
      case WorkerCompletes(q) => ApplyKeepsWellKept(subject.world, s, Complete(q));
      case ClaimElsewhere(q) => if q.jobName != subject.job { ClaimRecordsNothing(subject, s, q); }
      case SkipElsewhere(q) => if q.jobName != subject.job { SkipRecordsNothing(subject, s, q); }
    }
    hide WellKept, ClaimSpec, SkipSpec, DurablyAfter;
  }

  /** Only a reconciliation registers the job; every other step leaves it unknown. */
  lemma UnknownStep(subject: Subject, sys: System, action: Action)
    requires Unknown(subject.job, sys) && subject.job !in Perform(subject, sys, action).0.store.jobs
    ensures Unknown(subject.job, Perform(subject, sys, action).0)
  {
    match action {
      case Boot(id, definitions, now) => ApplyKeepsWellKept(subject.world, sys.store, Reconcile(definitions, now));
      case WorkerRenews(_) => ElsewhereRecordsNothing(subject, sys.store, action);
      case WorkerCompletes(_) => ElsewhereRecordsNothing(subject, sys.store, action);
      case ClaimElsewhere(_) => ElsewhereRecordsNothing(subject, sys.store, action);
      case SkipElsewhere(_) => ElsewhereRecordsNothing(subject, sys.store, action);
      case _ =>
    }
    hide WellKept, ReconcileAll, ElsewhereStore, RecoverSpec, GatherSpec, IssueSpec, S.ScheduleFromDefinition;
    assert sys.replicas == map[];
  }

  // The registering step starts the job's replica with it, on the first instant and with nothing recorded.
  lemma RegistrationAgrees(subject: Subject, orbit: Orbit, sys: System, action: Action)
    requires Unknown(subject.job, sys) && orbit.world == subject.world
    requires Keeps(Perform(subject, sys, action).0.store, subject.job, orbit.definition)
    requires Perform(subject, sys, action).0.store.jobs[subject.job].nextRunAt == orbit.start != 0
    ensures action.Boot? && Perform(subject, sys, action).1.None?
    ensures Agrees(subject, orbit, Perform(subject, sys, action).0, 0)
  {
    var sys' := Perform(subject, sys, action).0;
    if action.WorkerRenews? || action.WorkerCompletes? || action.ClaimElsewhere? || action.SkipElsewhere? {
      ElsewhereRecordsNothing(subject, sys.store, action);
    }
    assert action.Boot? by {
      hide WellKept, ReconcileAll, ElsewhereStore, RecoverSpec, GatherSpec, IssueSpec, S.ScheduleFromDefinition;
    }
    ApplyKeepsWellKept(subject.world, sys.store, Reconcile(action.definitions, action.now));
    hide WellKept, ReconcileAll, S.ScheduleFromDefinition;
    assert forall i: nat | i <= 0 :: orbit.At(i).Some?;
    assert orbit.At(0) == Some(orbit.start);
  }

  lemma NothingIsUnknown(job: string)
    ensures Unknown(job, NOTHING)
  {
    EmptyIsWellKept();
    hide WellKept;
  }

  lemma LastStep(subject: Subject, actions: seq<Action>, k: nat)
    requires 0 < k <= |actions|
    ensures SystemAt(subject, actions, k) == Perform(subject, SystemAt(subject, actions, k - 1), actions[k - 1]).0
  {
    hide Perform;
  }

  lemma {:induction false} UnknownUntilRegistered(subject: Subject, actions: seq<Action>, first: nat)
    requires first <= |actions|
    requires forall i | 0 <= i <= first :: subject.job !in SystemAt(subject, actions, i).store.jobs
    ensures Unknown(subject.job, SystemAt(subject, actions, first))
  {
    if first == 0 {
      hide Perform, Unknown;
      NothingIsUnknown(subject.job);
    } else {
      hide *;
      UnknownUntilRegistered(subject, actions, first - 1);
      LastStep(subject, actions, first);
      UnknownStep(subject, SystemAt(subject, actions, first - 1), actions[first - 1]);
    }
  }

  /** The last action of a registered run, and the run before it. */
  lemma RegisteredEarlier(subject: Subject, orbit: Orbit, actions: seq<Action>, first: nat, k: nat)
    requires Registered(subject, orbit, actions, first, k)
    ensures SystemAt(subject, actions, k) == Perform(subject, SystemAt(subject, actions, k - 1), actions[k - 1]).0
    ensures Keeps(SystemAt(subject, actions, k).store, subject.job, orbit.definition)
    ensures k > first + 1 ==> Registered(subject, orbit, actions, first, k - 1)
  {
    hide Perform, Keeps;
  }

  lemma RegisteredStart(subject: Subject, orbit: Orbit, actions: seq<Action>, first: nat, k: nat)
    requires Registered(subject, orbit, actions, first, k)
    ensures orbit.world == subject.world && first < |actions|
    ensures forall i | 0 <= i <= first :: subject.job !in SystemAt(subject, actions, i).store.jobs
    ensures subject.job in SystemAt(subject, actions, first + 1).store.jobs
    ensures SystemAt(subject, actions, first + 1).store.jobs[subject.job].nextRunAt == orbit.start != 0
  {
    hide SystemAt;
  }

  /** The registering step meets no error and starts from agreement. */
  lemma RegisteredStep(subject: Subject, orbit: Orbit, actions: seq<Action>, first: nat)
    requires first < |actions| && Registered(subject, orbit, actions, first, first + 1)
    ensures Perform(subject, SystemAt(subject, actions, first), actions[first]).1.None?
    ensures Agrees(subject, orbit, SystemAt(subject, actions, first + 1), 0)
  {
    RegisteredEarlier(subject, orbit, actions, first, first + 1);
    RegisteredStart(subject, orbit, actions, first, first + 1);
    UnknownUntilRegistered(subject, actions, first);
    hide *;
    RegistrationAgrees(subject, orbit, SystemAt(subject, actions, first), actions[first]);
  }

  // Gap-free recording with lagging replicas, from an empty store. In every state of every interleaving of replicas,
  // crashes, workers and other jobs, from the job's registration on and for as long as it keeps its schedule: exactly
  // the first n instants of its orbit are recorded, the durable cursor is the n-th, and every replica's cursor is on
  // the orbit at or before it.
  lemma {:induction false} RecordingIsGapless(subject: Subject, orbit: Orbit, actions: seq<Action>, first: nat, k: nat)
    returns (n: nat)
    requires Registered(subject, orbit, actions, first, k)
    ensures Agrees(subject, orbit, SystemAt(subject, actions, k), n)
    decreases k
  {
    hide Perform, SystemAt, Agrees, Unknown, Keeps;
    RegisteredEarlier(subject, orbit, actions, first, k);
    if k == first + 1 {
      hide *;
      RegisteredStep(subject, orbit, actions, first);
      n := 0;
    } else {
      assert first < k - 1;
      hide *;
      var earlier := RecordingIsGapless(subject, orbit, actions, first, k - 1);
      n := StepAgrees(subject, orbit, SystemAt(subject, actions, k - 1), actions[k - 1], earlier);
    }
  }

  // No replica's claim or skip ever meets an identity conflict or a missing job, however far it lags.
  lemma NoReplicaConflicts(subject: Subject, orbit: Orbit, actions: seq<Action>, first: nat, k: nat)
    requires k < |actions| && Registered(subject, orbit, actions, first, k + 1)
    ensures var error := Perform(subject, SystemAt(subject, actions, k), actions[k]).1;
            error != Some(OccurrenceConflict) && error != Some(JobNotFound)
  {
    hide Perform, SystemAt, Agrees, Unknown, Keeps;
    RegisteredEarlier(subject, orbit, actions, first, k + 1);
    if k == first {
      hide *;
      RegisteredStep(subject, orbit, actions, first);
    } else {
      assert first < k;
      hide *;
      var n := RecordingIsGapless(subject, orbit, actions, first, k);
      var n' := StepAgrees(subject, orbit, SystemAt(subject, actions, k), actions[k], n);
    }
  }
}
