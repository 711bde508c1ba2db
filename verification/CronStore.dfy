/** MemoryStore: the scheduler's lease protocol over two maps (pkg/cron/store.go). */
module CronStore {
  import opened Wrappers
  import opened GoIntegers
  import opened GoStrings
  import opened CronTime
  import S = CronSchedule

  const MAX_LEASE_OWNER_BYTES := 128
  const MAX_LEASE_TOKEN_BYTES := 256
  const MAX_STORE_TEXT_BYTES := 4096

  datatype CatchUpPolicy = CatchUpNone | CatchUpLatest | CatchUpAll | UnknownCatchUp(text: string)

  datatype OverlapPolicy = OverlapSkip | OverlapAllow | UnknownOverlap(text: string)

  datatype JobDefinition = JobDefinition(name: string, schedule: S.ScheduleDefinition,
                                         catchUp: CatchUpPolicy, overlap: OverlapPolicy)

  datatype JobState = JobState(definition: JobDefinition, nextRunAt: Instant, createdAt: Instant, updatedAt: Instant)

  datatype Status = Running | Succeeded | Failed | Canceled | Skipped | OtherStatus(text: string)

  /** OccurrenceID hashes the job and instant, taken to be injective; a caller may also send any other text. */
  datatype OccurrenceId = OccurrenceOf(job: string, at: Instant) | IdText(text: string)

  datatype Record = Record(
    id: OccurrenceId, jobName: string, scheduledAt: Instant, status: Status, attempt: uint32,
    startedAt: Instant, finishedAt: Instant,
    leaseOwner: string, leaseToken: string, leaseUntil: Instant,
    error: string, skipReason: string, lastModified: Instant)

  datatype Disposition = Acquired | AlreadyTerminal | LeaseHeld | SkippedOverlap

  datatype ClaimRequest = ClaimRequest(
    occurrenceId: OccurrenceId, jobName: string, scheduledAt: Instant, nextRunAt: Instant,
    leaseOwner: string, leaseToken: string, claimedAt: Instant, leaseUntil: Instant)

  datatype ClaimResult = ClaimResult(disposition: Disposition, occurrence: Record)

  datatype Renewal = Renewal(occurrenceId: OccurrenceId, leaseToken: string, renewedAt: Instant, leaseUntil: Instant)

  datatype Completion = Completion(occurrenceId: OccurrenceId, leaseToken: string, status: Status,
                                   finishedAt: Instant, error: string)

  datatype SkipRequest = SkipRequest(occurrenceId: OccurrenceId, jobName: string, scheduledAt: Instant,
                                     nextRunAt: Instant, skippedAt: Instant, reason: string)

  datatype StoreError = InvalidConfiguration | JobNotFound | LeaseLost | OccurrenceConflict | OccurrenceRunning
                      | NoInitialOccurrence

  /** The two maps of a MemoryStore, as a value. */
  datatype Store = Store(jobs: map<string, JobState>, occurrences: map<OccurrenceId, Record>)

  const EMPTY := Store(map[], map[])

  // ---- Validation ----

  predicate ValidJobName(name: string) {
    && 1 <= |name| <= 128 && 'a' <= name[0] <= 'z'
    && forall i | 1 <= i < |name| ::
         'a' <= name[i] <= 'z' || '0' <= name[i] <= '9' || name[i] in {'.', '_', '/', '-'}
  }

  function ValidateClaim(q: ClaimRequest): Option<StoreError> {
    if q.occurrenceId == IdText("") || q.jobName == "" || q.leaseOwner == "" || q.leaseToken == ""
       || |q.leaseOwner| > MAX_LEASE_OWNER_BYTES || |q.leaseToken| > MAX_LEASE_TOKEN_BYTES
       || q.scheduledAt == 0 || q.nextRunAt == 0 || q.claimedAt == 0 || q.leaseUntil == 0
       || !(q.nextRunAt > q.scheduledAt) || !DurablyAfter(q.leaseUntil, q.claimedAt)
    then Some(InvalidConfiguration)
    else if q.occurrenceId != OccurrenceOf(q.jobName, q.scheduledAt) then Some(OccurrenceConflict)
    else None
  }

  function ValidateSkip(q: SkipRequest): Option<StoreError> {
    if q.occurrenceId == IdText("") || q.jobName == "" || q.scheduledAt == 0 || q.nextRunAt == 0 || q.skippedAt == 0
       || |q.reason| == 0 || |q.reason| > MAX_STORE_TEXT_BYTES || !(q.nextRunAt > q.scheduledAt)
    then Some(InvalidConfiguration)
    else if q.occurrenceId != OccurrenceOf(q.jobName, q.scheduledAt) then Some(OccurrenceConflict)
    else None
  }

  predicate ValidRenewal(q: Renewal) {
    && q.occurrenceId != IdText("") && q.leaseToken != "" && q.renewedAt != 0
    && |q.leaseToken| <= MAX_LEASE_TOKEN_BYTES && q.leaseUntil != 0
    && DurablyAfter(q.leaseUntil, q.renewedAt)
  }

  predicate ValidCompletion(q: Completion) {
    && q.occurrenceId != IdText("") && q.leaseToken != "" && q.finishedAt != 0
    && |q.leaseToken| <= MAX_LEASE_TOKEN_BYTES
    && q.status in {Succeeded, Failed, Canceled}
    && |q.error| <= MAX_STORE_TEXT_BYTES
    && !(q.status == Succeeded && q.error != "")
  }

  /** The instant a persisted schedule gives after `at`, if the definition rebuilds and has one. */
  function NextRun(world: World, definition: S.ScheduleDefinition, at: Instant): Option<Instant> {
    match S.ScheduleFromDefinition(world, definition)
    case Failure(_) => None
    case Success(schedule) =>
      match S.Next(world, schedule, at)
      case Failure(_) => None
      case Success(next) => Some(next)
  }

  function ValidateScheduleAdvance(world: World, state: JobState, scheduledAt: Instant, nextRunAt: Instant)
    : Option<StoreError>
  {
    match NextRun(world, state.definition.schedule, scheduledAt)
    case None => Some(InvalidConfiguration)
    case Some(expected) => if expected != nextRunAt then Some(OccurrenceConflict) else None
  }

  predicate SameOccurrence(record: Record, jobName: string, scheduledAt: Instant) {
    record.jobName == jobName && record.scheduledAt == scheduledAt
  }

  // ---- Reconcile ----

  function PreserveIntervalAnchor(incoming: JobDefinition, existing: JobDefinition): JobDefinition {
    var i, e := incoming.schedule, existing.schedule;
    if i.kind == S.KindEvery && !i.hasAnchor && e.kind == S.KindEvery && e.hasAnchor
       && i.interval == e.interval && i.timezone == e.timezone && i.canonical == e.canonical
    then incoming.(schedule := i.(anchor := e.anchor, hasAnchor := true))
    else incoming
  }

  function NormalizedDefinition(world: World, definition: JobDefinition, now: Instant)
    : Result<(JobDefinition, S.Schedule), StoreError>
  {
    if !ValidJobName(definition.name) || definition.catchUp.UnknownCatchUp? || definition.overlap.UnknownOverlap? then
      Failure(InvalidConfiguration)
    else
      match S.ScheduleFromDefinition(world, definition.schedule)
      case Failure(_) => Failure(InvalidConfiguration)
      case Success(rebuilt) =>
        var schedule := if definition.schedule.kind == S.KindEvery && !definition.schedule.hasAnchor
                        then S.Anchored(rebuilt, now) else rebuilt;
        match S.Definition(world, schedule)
        case Failure(_) => Failure(InvalidConfiguration)
        case Success(d) => Success((definition.(schedule := d), schedule))
  }

  /** The state one incoming definition leaves its job in. */
  function ReconcileOne(world: World, jobs: map<string, JobState>, definition: JobDefinition, now: Instant)
    : Result<JobState, StoreError>
  {
    var exists_ := definition.name in jobs;
    var incoming := if exists_ then PreserveIntervalAnchor(definition, jobs[definition.name].definition) else definition;
    var (normalized, schedule) :- NormalizedDefinition(world, incoming, now);
    var recompute := !exists_ || normalized.schedule != jobs[definition.name].definition.schedule
                     || jobs[definition.name].nextRunAt == 0;
    if recompute && S.Next(world, schedule, now).Failure? then
      Failure(NoInitialOccurrence)
    else if !exists_ then
      Success(JobState(normalized, S.Next(world, schedule, now).value, now, now))
    else
      var existing := jobs[definition.name];
      Success(JobState(normalized,
                       if recompute then S.Next(world, schedule, now).value else existing.nextRunAt,
                       existing.createdAt,
                       if normalized != existing.definition then now else existing.updatedAt))
  }

  function ReconcileAll(world: World, jobs: map<string, JobState>, definitions: seq<JobDefinition>, now: Instant)
    : Result<map<string, JobState>, StoreError>
  {
    if definitions == [] then
      Success(map[])
    else
      var active :- ReconcileAll(world, jobs, definitions[..|definitions| - 1], now);
      var definition := definitions[|definitions| - 1];
      if definition.name in active then
        Failure(InvalidConfiguration)
      else
        var state :- ReconcileOne(world, jobs, definition, now);
        Success(active[definition.name := state])
  }

  function ReconcileSpec(world: World, s: Store, definitions: seq<JobDefinition>, now: Instant)
    : (Store, Option<StoreError>)
  {
    if now == 0 then (s, Some(InvalidConfiguration))
    else
      match ReconcileAll(world, s.jobs, definitions, now)
      case Failure(error) => (s, Some(error))
      case Success(active) => (s.(jobs := active), None)
  }

  // ---- Claim, Renew, Complete, Skip ----

  function Advance(s: Store, job: string, next: Instant, updatedAt: Instant): Store
    requires job in s.jobs
  {
    var state := s.jobs[job];
    var cursor := if state.nextRunAt < next then next else state.nextRunAt;
    s.(jobs := s.jobs[job := state.(nextRunAt := cursor, updatedAt := updatedAt)])
  }

  predicate Live(record: Record, now: Instant) {
    record.status == Running && DurablyAfter(record.leaseUntil, now)
  }

  /** Some other occurrence of the job runs under a live lease. */
  predicate LiveOverlap(occurrences: map<OccurrenceId, Record>, job: string, excepted: Option<OccurrenceId>, now: Instant) {
    exists id | id in occurrences ::
      occurrences[id].jobName == job && Some(occurrences[id].id) != excepted && Live(occurrences[id], now)
  }

  function Put(s: Store, record: Record): Store {
    s.(occurrences := s.occurrences[record.id := record])
  }

  function Reclaimed(existing: Record, q: ClaimRequest): Record {
    existing.(attempt := (existing.attempt + 1) % TWO_TO_THE_32, startedAt := q.claimedAt, finishedAt := 0,
              leaseOwner := q.leaseOwner, leaseToken := q.leaseToken, leaseUntil := q.leaseUntil,
              error := "", skipReason := "", lastModified := q.claimedAt)
  }

  function FirstClaimed(q: ClaimRequest): Record {
    Record(q.occurrenceId, q.jobName, q.scheduledAt, Running, 1, q.claimedAt, 0,
           q.leaseOwner, q.leaseToken, q.leaseUntil, "", "", q.claimedAt)
  }

  function SkippedRecord(id: OccurrenceId, job: string, at: Instant, now: Instant, reason: string): Record {
    Record(id, job, at, Skipped, 0, 0, now, "", "", 0, "", reason, now)
  }

  function ClaimSpec(world: World, s: Store, q: ClaimRequest): (Store, Result<ClaimResult, StoreError>) {
    if ValidateClaim(q).Some? then (s, Failure(ValidateClaim(q).value))
    else if q.jobName !in s.jobs then (s, Failure(JobNotFound))
    else
      var refused := ValidateScheduleAdvance(world, s.jobs[q.jobName], q.scheduledAt, q.nextRunAt);
      if refused.Some? then (s, Failure(refused.value))
      else if q.occurrenceId in s.occurrences then ClaimExisting(s, q)
      else ClaimNew(s, q)
  }

  function ClaimExisting(s: Store, q: ClaimRequest): (Store, Result<ClaimResult, StoreError>)
    requires q.jobName in s.jobs && q.occurrenceId in s.occurrences
  {
    var existing := s.occurrences[q.occurrenceId];
    var advanced := Advance(s, q.jobName, q.nextRunAt, q.claimedAt);
    if !SameOccurrence(existing, q.jobName, q.scheduledAt) then (s, Failure(OccurrenceConflict))
    else if existing.status != Running then (advanced, Success(ClaimResult(AlreadyTerminal, existing)))
    else if DurablyAfter(existing.leaseUntil, q.claimedAt) then (advanced, Success(ClaimResult(LeaseHeld, existing)))
    else if s.jobs[q.jobName].definition.overlap == OverlapSkip
            && LiveOverlap(s.occurrences, q.jobName, Some(q.occurrenceId), q.claimedAt) then
      (s, Success(ClaimResult(LeaseHeld, existing)))
    else
      var record := Reclaimed(existing, q);
      (Advance(s.(occurrences := s.occurrences[q.occurrenceId := record]), q.jobName, q.nextRunAt, q.claimedAt),
       Success(ClaimResult(Acquired, record)))
  }

  function ClaimNew(s: Store, q: ClaimRequest): (Store, Result<ClaimResult, StoreError>)
    requires q.jobName in s.jobs && q.occurrenceId !in s.occurrences
  {
    if s.jobs[q.jobName].nextRunAt != q.scheduledAt then
      (s, Failure(OccurrenceConflict))
    else
      var overlapped := s.jobs[q.jobName].definition.overlap == OverlapSkip
                        && LiveOverlap(s.occurrences, q.jobName, None, q.claimedAt);
      var record := if overlapped
                    then SkippedRecord(q.occurrenceId, q.jobName, q.scheduledAt, q.claimedAt, "overlap")
                    else FirstClaimed(q);
      (Advance(Put(s, record), q.jobName, q.nextRunAt, q.claimedAt),
       Success(ClaimResult(if overlapped then SkippedOverlap else Acquired, record)))
  }

  /** The caller still owns the occurrence: it runs under this token and the lease is live. */
  predicate Owns(s: Store, id: OccurrenceId, token: string, now: Instant) {
    id in s.occurrences && Live(s.occurrences[id], now) && s.occurrences[id].leaseToken == token
  }

  function RenewSpec(s: Store, q: Renewal): (Store, Option<StoreError>) {
    if !ValidRenewal(q) then (s, Some(InvalidConfiguration))
    else if !Owns(s, q.occurrenceId, q.leaseToken, q.renewedAt) then (s, Some(LeaseLost))
    else
      var record := s.occurrences[q.occurrenceId].(leaseUntil := q.leaseUntil, lastModified := q.renewedAt);
      (s.(occurrences := s.occurrences[q.occurrenceId := record]), None)
  }

  function Finished(record: Record, status: Status, at: Instant, error: string, skipReason: string): Record {
    record.(status := status, finishedAt := at, leaseOwner := "", leaseToken := "", leaseUntil := 0,
            error := error, skipReason := skipReason, lastModified := at)
  }

  function CompleteSpec(s: Store, q: Completion): (Store, Option<StoreError>) {
    if !ValidCompletion(q) then (s, Some(InvalidConfiguration))
    else if !Owns(s, q.occurrenceId, q.leaseToken, q.finishedAt) then (s, Some(LeaseLost))
    else
      var record := s.occurrences[q.occurrenceId];
      var done := Finished(record, q.status, q.finishedAt, q.error, record.skipReason);
      (s.(occurrences := s.occurrences[q.occurrenceId := done]), None)
  }

  function SkipSpec(world: World, s: Store, q: SkipRequest): (Store, Option<StoreError>) {
    if ValidateSkip(q).Some? then (s, ValidateSkip(q))
    else if q.jobName !in s.jobs then (s, Some(JobNotFound))
    else
      var refused := ValidateScheduleAdvance(world, s.jobs[q.jobName], q.scheduledAt, q.nextRunAt);
      if q.occurrenceId in s.occurrences then
        var existing := s.occurrences[q.occurrenceId];
        if !SameOccurrence(existing, q.jobName, q.scheduledAt) then (s, Some(OccurrenceConflict))
        else if existing.status != Running then (s, None)
        else if refused.Some? then (s, refused)
        else if DurablyAfter(existing.leaseUntil, q.skippedAt) then (s, Some(OccurrenceRunning))
        else
          var done := Finished(existing, Skipped, q.skippedAt, "", q.reason);
          (Advance(s.(occurrences := s.occurrences[q.occurrenceId := done]), q.jobName, q.nextRunAt, q.skippedAt), None)
      else if refused.Some? then (s, refused)
      else if s.jobs[q.jobName].nextRunAt != q.scheduledAt then (s, Some(OccurrenceConflict))
      else
        var record := SkippedRecord(q.occurrenceId, q.jobName, q.scheduledAt, q.skippedAt, q.reason);
        (Advance(Put(s, record), q.jobName, q.nextRunAt, q.skippedAt), None)
  }

  /** A running occurrence of an active job whose lease is no longer live. */
  predicate Abandoned(s: Store, id: OccurrenceId, now: Instant) {
    && id in s.occurrences && s.occurrences[id].status == Running
    && !DurablyAfter(s.occurrences[id].leaseUntil, now)
    && s.occurrences[id].jobName in s.jobs
  }

  const MAX_CATCH_UP_LIMIT := 0x7fff_ffff

  /** The text of an occurrence's identity. */
  function TextOf(world: World, id: OccurrenceId): string {
    match id
    case OccurrenceOf(job, at) => world.identityText(job, at)
    case IdText(text) => text
  }

  /** The order Expired lists in: expiry, then schedule, then identity. */
  predicate ExpiresBefore(world: World, a: Record, b: Record) {
    if a.leaseUntil != b.leaseUntil then a.leaseUntil < b.leaseUntil
    else if a.scheduledAt != b.scheduledAt then a.scheduledAt < b.scheduledAt
    else AtMost(TextOf(world, a.id), TextOf(world, b.id))
  }

  predicate InExpiryOrder(world: World, records: seq<Record>) {
    forall i, j | 0 <= i < j < |records| :: ExpiresBefore(world, records[i], records[j])
  }

  /** `ids` are distinct keys of `occurrences` and `records` what they hold. */
  predicate Lists(occurrences: map<OccurrenceId, Record>, ids: seq<OccurrenceId>, records: seq<Record>) {
    && |ids| == |records|
    && (forall i | 0 <= i < |ids| :: ids[i] in occurrences && records[i] == occurrences[ids[i]])
    && forall i, j | 0 <= i < j < |ids| :: ids[i] != ids[j]
  }

  function Inserted<T>(items: seq<T>, position: nat, item: T): (r: seq<T>)
    requires position <= |items|
    ensures |r| == |items| + 1
    ensures forall x | x in r :: x in items || x == item
    ensures item in r && forall x | x in items :: x in r
  {
    var r := items[..position] + [item] + items[position..];
    assert r[position] == item;
    assert forall i | 0 <= i < |items| :: items[i] == if i < position then r[i] else r[i + 1];
    r
  }

  lemma InsertedInOrder(world: World, records: seq<Record>, position: nat, record: Record)
    requires InExpiryOrder(world, records) && position <= |records|
    requires forall i | 0 <= i < position :: ExpiresBefore(world, records[i], record)
    requires position < |records| ==> ExpiresBefore(world, record, records[position])
    ensures InExpiryOrder(world, Inserted(records, position, record))
  {
    hide ExpiresBefore;
    forall i | position <= i < |records|
      ensures ExpiresBefore(world, record, records[i])
    {
      ExpiresTransitively(world, record, records[position], records[i]);
    }
  }

  lemma ExpiresTransitively(world: World, a: Record, b: Record, c: Record)
    ensures ExpiresBefore(world, a, b) || ExpiresBefore(world, b, a)
    ensures ExpiresBefore(world, a, b) && ExpiresBefore(world, b, c) ==> ExpiresBefore(world, a, c)
  {
    AtMostIsTotal(TextOf(world, a.id), TextOf(world, b.id));
    var x, y, z := TextOf(world, a.id), TextOf(world, b.id), TextOf(world, c.id);
    if AtMost(x, y) && AtMost(y, z) {
      AtMostIsTransitive(x, y, z);
    }
    hide AtMost, TextOf;
  }

  lemma InsertedLists(occurrences: map<OccurrenceId, Record>, ids: seq<OccurrenceId>, records: seq<Record>,
                      position: nat, id: OccurrenceId)
    requires Lists(occurrences, ids, records) && id in occurrences && id !in ids && position <= |ids|
    ensures Lists(occurrences, Inserted(ids, position, id), Inserted(records, position, occurrences[id]))
  {
  }

  // ---- The sorted list of job states ----

  predicate NamesAscend(states: seq<JobState>) {
    forall i, j | 0 <= i < j < |states| ::
      AtMost(states[i].definition.name, states[j].definition.name) && states[i].definition.name != states[j].definition.name
  }

  /** The states are those of the named jobs, in strictly ascending order of their names. */
  predicate ListsJobs(jobs: map<string, JobState>, names: set<string>, states: seq<JobState>) {
    && NamesAscend(states)
    && (forall state | state in states :: state.definition.name in names)
    && (forall name | name in names :: name in jobs && jobs[name].definition.name == name && jobs[name] in states)
    && |states| == |names|
  }

  lemma InsertedAscends(states: seq<JobState>, position: nat, state: JobState)
    requires NamesAscend(states) && position <= |states|
    requires forall i | 0 <= i < |states| :: states[i].definition.name != state.definition.name
    requires forall i | 0 <= i < position :: AtMost(states[i].definition.name, state.definition.name)
    requires position < |states| ==> !AtMost(states[position].definition.name, state.definition.name)
    ensures NamesAscend(Inserted(states, position, state))
  {
    var name := state.definition.name;
    hide AtMost;
    forall i | position <= i < |states|
      ensures AtMost(name, states[i].definition.name)
    {
      AtMostIsTotal(states[position].definition.name, name);
      if position < i {
        AtMostIsTransitive(name, states[position].definition.name, states[i].definition.name);
      }
    }
  }

  lemma ListsOneMore(jobs: map<string, JobState>, names: set<string>, states: seq<JobState>, position: nat, name: string)
    requires ListsJobs(jobs, names, states) && name in jobs && jobs[name].definition.name == name && name !in names
    requires position <= |states|
    requires forall i | 0 <= i < position :: AtMost(states[i].definition.name, name)
    requires position < |states| ==> !AtMost(states[position].definition.name, name)
    ensures ListsJobs(jobs, names + {name}, Inserted(states, position, jobs[name]))
  {
    assert forall i | 0 <= i < |states| :: states[i] in states;
    InsertedAscends(states, position, jobs[name]);
    hide AtMost, NamesAscend, Inserted;
    var longer := Inserted(states, position, jobs[name]);
    forall other | other in names + {name}
      ensures other in jobs && jobs[other].definition.name == other && jobs[other] in longer
    {
    }
  }

  method InsertionPoint(states: seq<JobState>, name: string) returns (position: nat)
    ensures position <= |states|
    ensures forall i | 0 <= i < position :: AtMost(states[i].definition.name, name)
    ensures position < |states| ==> !AtMost(states[position].definition.name, name)
  {
    position := 0;
    while position < |states| && AtMost(states[position].definition.name, name)
      invariant position <= |states|
      invariant forall i | 0 <= i < position :: AtMost(states[i].definition.name, name)
    {
      position := position + 1;
    }
  }

  class MemoryStore {
    const world: World
    var jobs: map<string, JobState>
    var occurrences: map<OccurrenceId, Record>

    ghost function Contents(): Store
      reads this
    {
      Store(jobs, occurrences)
    }

    constructor (world: World)
      ensures Contents() == EMPTY
    {
      this.world := world;
      jobs, occurrences := map[], map[];
    }

    /** Visits the jobs in an arbitrary order and sorts them by name. */
    method JobStatesLocked() returns (states: seq<JobState>)
      requires forall name | name in jobs :: jobs[name].definition.name == name
      ensures ListsJobs(jobs, jobs.Keys, states)
    {
      states := [];
      var left, listed: set<string> := jobs.Keys, {};
      assert ListsJobs(jobs, {}, []);
      hide *;
      while left != {}
        invariant left !! listed && left + listed == jobs.Keys && ListsJobs(jobs, listed, states)
        decreases left
      {
        var name :| name in left;
        var position := InsertionPoint(states, name);
        ListsOneMore(jobs, listed, states, position, name);
        states := Inserted(states, position, jobs[name]);
        left, listed := left - {name}, listed + {name};
      }
      assert listed == jobs.Keys;
    }

    method Reconcile(definitions: seq<JobDefinition>, now: Instant)
      returns (states: seq<JobState>, error: Option<StoreError>)
      modifies this
      ensures (Contents(), error) == ReconcileSpec(world, old(Contents()), definitions, now)
      ensures if error.None? then ListsJobs(jobs, jobs.Keys, states) else states == []
    {
      if now == 0 {
        return [], Some(InvalidConfiguration);
      }
      var active: map<string, JobState> := map[];
      for k := 0 to |definitions|
        invariant Contents() == old(Contents())
        invariant ReconcileAll(world, jobs, definitions[..k], now) == Success(active)
        invariant forall name | name in active :: active[name].definition.name == name
      {
        var incoming := definitions[k];
        ReconcileAllStops(world, jobs, definitions, k, now);
        if incoming.name in active {
          return [], Some(InvalidConfiguration);
        }
        var state := ReconcileOne(world, jobs, incoming, now);
        if state.Failure? {
          return [], Some(state.error);
        }
        ReconcileOneNames(world, jobs, incoming, now);
        hide ReconcileOne, ReconcileAll;
        active := active[incoming.name := state.value];
      }
      assert definitions[..|definitions|] == definitions;
      jobs := active;
      states := JobStatesLocked();
      return states, None;
    }

    method AdvanceLocked(job: string, next: Instant, updatedAt: Instant)
      requires job in jobs
      modifies this`jobs
      ensures Contents() == Advance(old(Contents()), job, next, updatedAt)
    {
      var state := jobs[job];
      if state.nextRunAt < next {
        state := state.(nextRunAt := next);
      }
      state := state.(updatedAt := updatedAt);
      jobs := jobs[job := state];
    }

    /** Visits the occurrences in an arbitrary order, as ranging over a Go map does. */
    method HasLiveOverlap(job: string, excepted: Option<OccurrenceId>, now: Instant) returns (found: bool)
      ensures found == LiveOverlap(occurrences, job, excepted, now)
    {
      var left := occurrences.Keys;
      while left != {}
        invariant left <= occurrences.Keys
        invariant forall id | id in occurrences && id !in left ::
          !(occurrences[id].jobName == job && Some(occurrences[id].id) != excepted && Live(occurrences[id], now))
        decreases left
      {
        var id :| id in left;
        var record := occurrences[id];
        if record.jobName == job && Some(record.id) != excepted && Live(record, now) {
          return true;
        }
        left := left - {id};
      }
      return false;
    }

    method Claim(q: ClaimRequest) returns (r: Result<ClaimResult, StoreError>)
      modifies this
      ensures (Contents(), r) == ClaimSpec(world, old(Contents()), q)
    {
      hide ValidateClaim, ValidateScheduleAdvance, LiveOverlap, DurablyAfter;
      var invalid := ValidateClaim(q);
      if invalid.Some? {
        return Failure(invalid.value);
      }
      if q.jobName !in jobs {
        return Failure(JobNotFound);
      }
      var state := jobs[q.jobName];
      var refused := ValidateScheduleAdvance(world, state, q.scheduledAt, q.nextRunAt);
      if refused.Some? {
        return Failure(refused.value);
      }
      if q.occurrenceId in occurrences {
        var existing := occurrences[q.occurrenceId];
        if !SameOccurrence(existing, q.jobName, q.scheduledAt) {
          return Failure(OccurrenceConflict);
        }
        if existing.status != Running {
          AdvanceLocked(q.jobName, q.nextRunAt, q.claimedAt);
          return Success(ClaimResult(AlreadyTerminal, existing));
        }
        if DurablyAfter(existing.leaseUntil, q.claimedAt) {
          AdvanceLocked(q.jobName, q.nextRunAt, q.claimedAt);
          return Success(ClaimResult(LeaseHeld, existing));
        }
        var overlap := HasLiveOverlap(q.jobName, Some(q.occurrenceId), q.claimedAt);
        if state.definition.overlap == OverlapSkip && overlap {
          return Success(ClaimResult(LeaseHeld, existing));
        }
        var reclaimed := existing.(attempt := (existing.attempt + 1) % TWO_TO_THE_32, startedAt := q.claimedAt);
        reclaimed := reclaimed.(finishedAt := 0, leaseOwner := q.leaseOwner, leaseToken := q.leaseToken);
        reclaimed := reclaimed.(leaseUntil := q.leaseUntil, error := "", skipReason := "", lastModified := q.claimedAt);
        occurrences := occurrences[q.occurrenceId := reclaimed];
        AdvanceLocked(q.jobName, q.nextRunAt, q.claimedAt);
        return Success(ClaimResult(Acquired, reclaimed));
      }
      if state.nextRunAt != q.scheduledAt {
        return Failure(OccurrenceConflict);
      }
      var overlapped := HasLiveOverlap(q.jobName, None, q.claimedAt);
      if state.definition.overlap == OverlapSkip && overlapped {
        var skipped := SkippedRecord(q.occurrenceId, q.jobName, q.scheduledAt, q.claimedAt, "overlap");
        occurrences := occurrences[q.occurrenceId := skipped];
        AdvanceLocked(q.jobName, q.nextRunAt, q.claimedAt);
        return Success(ClaimResult(SkippedOverlap, skipped));
      }
      var record := FirstClaimed(q);
      occurrences := occurrences[q.occurrenceId := record];
      AdvanceLocked(q.jobName, q.nextRunAt, q.claimedAt);
      return Success(ClaimResult(Acquired, record));
    }

    method Renew(q: Renewal) returns (error: Option<StoreError>)
      modifies this
      ensures (Contents(), error) == RenewSpec(old(Contents()), q)
    {
      if !ValidRenewal(q) {
        return Some(InvalidConfiguration);
      }
      if q.occurrenceId !in occurrences {
        return Some(LeaseLost);
      }
      var record := occurrences[q.occurrenceId];
      if record.status != Running || record.leaseToken != q.leaseToken || !DurablyAfter(record.leaseUntil, q.renewedAt) {
        return Some(LeaseLost);
      }
      record := record.(leaseUntil := q.leaseUntil, lastModified := q.renewedAt);
      occurrences := occurrences[q.occurrenceId := record];
      return None;
    }

    method Complete(q: Completion) returns (error: Option<StoreError>)
      modifies this
      ensures (Contents(), error) == CompleteSpec(old(Contents()), q)
    {
      if !ValidCompletion(q) {
        return Some(InvalidConfiguration);
      }
      if q.occurrenceId !in occurrences {
        return Some(LeaseLost);
      }
      var record := occurrences[q.occurrenceId];
      if record.status != Running || record.leaseToken != q.leaseToken || !DurablyAfter(record.leaseUntil, q.finishedAt) {
        return Some(LeaseLost);
      }
      record := record.(status := q.status, finishedAt := q.finishedAt, leaseOwner := "", leaseToken := "");
      record := record.(leaseUntil := 0, error := q.error, lastModified := q.finishedAt);
      occurrences := occurrences[q.occurrenceId := record];
      return None;
    }

    /** The oldest abandoned occurrences, at most `limit` of them; `ids` says which they are. */
    method Expired(now: Instant, limit: int) returns (r: Result<seq<Record>, StoreError>, ghost ids: seq<OccurrenceId>)
      ensures r.Failure? <==> now == 0 || limit <= 0 || limit > 2_147_483_647
      ensures r.Failure? ==> r.error == InvalidConfiguration
      ensures r.Success? ==>
                && Lists(occurrences, ids, r.value) && InExpiryOrder(world, r.value) && |r.value| <= limit
                && (forall i, j | 0 <= i < j < |r.value| ::
                      r.value[i].leaseUntil < r.value[j].leaseUntil
                      || (r.value[i].leaseUntil == r.value[j].leaseUntil && r.value[i].scheduledAt <= r.value[j].scheduledAt))
                && (forall id | id in ids :: Abandoned(Contents(), id, now))
                && forall id | Abandoned(Contents(), id, now) && id !in ids ::
                     |r.value| == limit && forall k | k in r.value :: ExpiresBefore(world, k, occurrences[id])
    {
      ids := [];
      if now == 0 || limit <= 0 || limit > MAX_CATCH_UP_LIMIT {
        return Failure(InvalidConfiguration), ids;
      }
      var records: seq<Record> := [];
      var left := occurrences.Keys;
      while left != {}
        invariant left <= occurrences.Keys
        invariant Lists(occurrences, ids, records) && InExpiryOrder(world, records)
        invariant forall id :: id in ids <==> id !in left && Abandoned(Contents(), id, now)
        decreases left
      {
        var id :| id in left;
        left := left - {id};
        var record := occurrences[id];
        if record.status == Running && !DurablyAfter(record.leaseUntil, now) && record.jobName in jobs {
          var position := 0;
          while position < |records| && ExpiresBefore(world, records[position], record)
            invariant position <= |records|
            invariant forall i | 0 <= i < position :: ExpiresBefore(world, records[i], record)
          {
            position := position + 1;
          }
          if position < |records| {
            ExpiresTransitively(world, records[position], record, record);
          }
          InsertedInOrder(world, records, position, record);
          InsertedLists(occurrences, ids, records, position, id);
          records, ids := Inserted(records, position, record), Inserted(ids, position, id);
        }
      }
      ghost var all, allIds := records, ids;
      if |records| > limit {
        records, ids := records[..limit], ids[..limit];
        forall id | id in allIds && id !in ids
          ensures forall k | k in records :: ExpiresBefore(world, k, occurrences[id])
        {
          var j :| 0 <= j < |allIds| && allIds[j] == id;
          assert j >= limit && all[j] == occurrences[id];
        }
      }
      return Success(records), ids;
    }

    method Skip(q: SkipRequest) returns (error: Option<StoreError>)
      modifies this
      ensures (Contents(), error) == SkipSpec(world, old(Contents()), q)
    {
      hide ValidateSkip, ValidateScheduleAdvance, DurablyAfter;
      var invalid := ValidateSkip(q);
      if invalid.Some? {
        return invalid;
      }
      if q.jobName !in jobs {
        return Some(JobNotFound);
      }
      var state := jobs[q.jobName];
      var refused := ValidateScheduleAdvance(world, state, q.scheduledAt, q.nextRunAt);
      if q.occurrenceId in occurrences {
        var existing := occurrences[q.occurrenceId];
        if !SameOccurrence(existing, q.jobName, q.scheduledAt) {
          return Some(OccurrenceConflict);
        }
        if existing.status != Running {
          return None;
        }
        if refused.Some? {
          return refused;
        }
        if DurablyAfter(existing.leaseUntil, q.skippedAt) {
          return Some(OccurrenceRunning);
        }
        existing := existing.(status := Skipped, finishedAt := q.skippedAt, leaseOwner := "", leaseToken := "");
        existing := existing.(leaseUntil := 0, error := "", skipReason := q.reason, lastModified := q.skippedAt);
        occurrences := occurrences[q.occurrenceId := existing];
        AdvanceLocked(q.jobName, q.nextRunAt, q.skippedAt);
        return None;
      }
      if refused.Some? {
        return refused;
      }
      if state.nextRunAt != q.scheduledAt {
        return Some(OccurrenceConflict);
      }
      var record := SkippedRecord(q.occurrenceId, q.jobName, q.scheduledAt, q.skippedAt, q.reason);
      occurrences := occurrences[q.occurrenceId := record];
      AdvanceLocked(q.jobName, q.nextRunAt, q.skippedAt);
      return None;
    }
  }

  lemma ReconcileOneNames(world: World, jobs: map<string, JobState>, definition: JobDefinition, now: Instant)
    requires ReconcileOne(world, jobs, definition, now).Success?
    ensures ReconcileOne(world, jobs, definition, now).value.definition.name == definition.name
  {
    hide S.ScheduleFromDefinition, S.Definition, S.Next, ValidJobName;
  }

  // An incoming definition that is refused makes the whole reconciliation fail with its error.
  lemma {:induction false} ReconcileAllStops(world: World, jobs: map<string, JobState>, definitions: seq<JobDefinition>,
                                             k: nat, now: Instant)
    requires k < |definitions|
    requires ReconcileAll(world, jobs, definitions[..k], now).Success?
    ensures var active := ReconcileAll(world, jobs, definitions[..k], now).value;
            var one := ReconcileOne(world, jobs, definitions[k], now);
            var next := ReconcileAll(world, jobs, definitions[..k + 1], now);
            var all := ReconcileAll(world, jobs, definitions, now);
            if definitions[k].name in active then all == Failure(InvalidConfiguration)
            else if one.Failure? then all == Failure(one.error)
            else next == Success(active[definitions[k].name := one.value])
  {
    hide ReconcileOne;
    assert definitions[..k + 1][..k] == definitions[..k];
    assert definitions[..|definitions|] == definitions;
    if ReconcileAll(world, jobs, definitions[..k + 1], now).Failure? {
      ReconcileFailurePersists(world, jobs, definitions, k + 1, now);
    }
  }

  lemma {:induction false} ReconcileFailurePersists(world: World, jobs: map<string, JobState>,
                                                    definitions: seq<JobDefinition>, k: nat, now: Instant)
    requires k <= |definitions|
    requires ReconcileAll(world, jobs, definitions[..k], now).Failure?
    ensures ReconcileAll(world, jobs, definitions, now) == ReconcileAll(world, jobs, definitions[..k], now)
    decreases |definitions| - k
  {
    hide ReconcileOne;
    if k < |definitions| {
      assert definitions[..k + 1][..k] == definitions[..k];
      ReconcileFailurePersists(world, jobs, definitions, k + 1, now);
    } else {
      assert definitions[..k] == definitions;
    }
  }
}
