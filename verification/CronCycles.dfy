/** What the steps of a service's cycle do for its job (pkg/cron/service.go). */
module CronCycles {
  import opened Wrappers
  import opened GoIntegers
  import opened CronTime
  import opened CronStore
  import opened CronCatchUp
  import opened CronRuns
  import opened CronReplicas
  import S = CronSchedule

  // A service that boots follows its job from the stored cursor, by the stored policy, as a startup with nothing pending.
  lemma BootStarts(subject: Subject, sys: System, id: nat, definitions: seq<JobDefinition>, now: Instant)
    ensures var t := Perform(subject, sys, Boot(id, definitions, now)).0;
            && t.store == ReconcileSpec(subject.world, sys.store, definitions, now).0
            && (forall other | other != id :: (other in t.replicas <==> other in sys.replicas)
                                              && (other in sys.replicas ==> t.replicas[other] == sys.replicas[other]))
            && (id in t.replicas
                <==> ReconcileSpec(subject.world, sys.store, definitions, now).1.None?
                     && subject.job in t.store.jobs && t.store.jobs[subject.job].nextRunAt != 0
                     && S.ScheduleFromDefinition(subject.world, t.store.jobs[subject.job].definition.schedule).Success?)
            && (id in t.replicas ==>
                  && subject.job in t.store.jobs
                  && var state, replica := t.store.jobs[subject.job], t.replicas[id];
                     && S.ScheduleFromDefinition(subject.world, state.definition.schedule) == Success(replica.schedule)
                     && replica.policy == state.definition.catchUp && replica.cursor == state.nextRunAt != 0
                     && replica.startup && replica.expired == [] && replica.pending == [])
  {
    hide ReconcileSpec, S.ScheduleFromDefinition;
  }

  // A cycle that has nothing left to issue takes over the expired occurrences that the store lists for its job.
  lemma FetchTakesOver(subject: Subject, sys: System, id: nat, now: Instant, records: seq<Record>)
    requires id in sys.replicas && sys.replicas[id].expired == [] && sys.replicas[id].pending == []
    requires forall r | r in records ::
               && r.jobName == subject.job && Abandoned(sys.store, r.id, now) && sys.store.occurrences[r.id] == r
    ensures var t := Perform(subject, sys, FetchExpired(id, now, records)).0;
            && t.store == sys.store && id in t.replicas && t.replicas - {id} == sys.replicas - {id}
            && t.replicas[id] == sys.replicas[id].(expired := records)
  {
    hide Abandoned;
  }

  // Gathering collects what is due from the cursor on, decides it by the policy, and ends the startup once nothing more is
  // due.
  lemma GatherDecides(subject: Subject, sys: System, id: nat, now: Instant, limit: nat)
    requires id in sys.replicas && sys.replicas[id].expired == [] && sys.replicas[id].pending == []
    ensures var replica, t := sys.replicas[id], Perform(subject, sys, Gather(id, now, limit)).0;
            match Collect(subject.world, replica.schedule, replica.cursor, now, limit)
            case Failure(_) => t == Stop(sys, id)
            case Success((due, more)) =>
              && id in t.replicas && DecidedBy(replica.policy, due, replica.startup, more, t.replicas[id].pending)
              && t == sys.(replicas := sys.replicas[id := replica.(pending := t.replicas[id].pending,
                                                                  startup := replica.startup && more)])
  {
    var replica := sys.replicas[id];
    var collected := Collect(subject.world, replica.schedule, replica.cursor, now, limit);
    if collected.Success? {
      DecidesExactly(replica.policy, collected.value.0, replica.startup, collected.value.1);
    }
    hide Collect, Decide, DecidedBy;
  }

  /** The record of an occurrence that was claimed for the first time. */
  predicate ClaimedFirst(record: Record, job: string, due: Due, stamp: Stamp) {
    && record.jobName == job && record.scheduledAt == due.scheduledAt && record.status == Running && record.attempt == 1
    && record.startedAt == stamp.clock && record.leaseOwner == stamp.owner && record.leaseToken == stamp.token
    && record.leaseUntil == stamp.clock + stamp.lease
  }

  predicate SkippedBecause(record: Record, job: string, due: Due, stamp: Stamp, reason: string) {
    && record.jobName == job && record.scheduledAt == due.scheduledAt && record.status == Skipped && record.attempt == 0
    && record.finishedAt == stamp.clock && record.skipReason == reason
  }

  // A decision to run is a claim under the replica's own token and lease, unless the overlap policy skips it. The replica's
  // cursor moves on, never back; an error stops the replica and leaves the store as it was.
  lemma RunsAsDecided(subject: Subject, sys: System, id: nat, stamp: Stamp)
    requires id in sys.replicas && sys.replicas[id].pending != [] && sys.replicas[id].pending[0].Run?
    ensures var replica, (t, error) := sys.replicas[id], Perform(subject, sys, Issue(id, stamp));
            var due := replica.pending[0].due;
            var occurrence := OccurrenceOf(subject.job, due.scheduledAt);
            && (error.Some? ==> t == Stop(sys, id))
            && (error.None? ==>
                  && t.replicas == sys.replicas[id :=
                       replica.(pending := replica.pending[1..],
                                cursor := if replica.cursor <= due.nextRunAt then due.nextRunAt else replica.cursor)]
                  && occurrence in t.store.occurrences
                  && (occurrence !in sys.store.occurrences ==>
                        || ClaimedFirst(t.store.occurrences[occurrence], subject.job, due, stamp)
                        || (SkippedBecause(t.store.occurrences[occurrence], subject.job, due, stamp, "overlap")
                            && subject.job in sys.store.jobs
                            && sys.store.jobs[subject.job].definition.overlap == OverlapSkip)))
  {
    ClaimWrites(subject.world, sys.store, subject.job, sys.replicas[id].pending[0].due, stamp);
    hide ClaimSpec, SkipSpec, ClaimedFirst, SkippedBecause;
  }

  // A decision to skip is recorded with its reason, and the replica goes on to the following instant.
  lemma SkipsAsDecided(subject: Subject, sys: System, id: nat, stamp: Stamp)
    requires id in sys.replicas && sys.replicas[id].pending != [] && sys.replicas[id].pending[0].Skip?
    ensures var replica, (t, error) := sys.replicas[id], Perform(subject, sys, Issue(id, stamp));
            var due := replica.pending[0].due;
            var occurrence := OccurrenceOf(subject.job, due.scheduledAt);
            && (error.Some? ==> t == Stop(sys, id))
            && (error.None? ==>
                  && t.replicas == sys.replicas[id := replica.(pending := replica.pending[1..], cursor := due.nextRunAt)]
                  && occurrence in t.store.occurrences
                  && (occurrence !in sys.store.occurrences ==>
                        SkippedBecause(t.store.occurrences[occurrence], subject.job, due, stamp, replica.pending[0].reason)))
  {
    SkipWrites(subject.world, sys.store, subject.job, sys.replicas[id].pending[0].due, stamp, sys.replicas[id].pending[0].reason);
    hide ClaimSpec, SkipSpec, SkippedBecause;
  }

  lemma ClaimWrites(world: World, s: Store, job: string, due: Due, stamp: Stamp)
    ensures var (t, r) := ClaimSpec(world, s, ClaimFor(job, due, stamp));
            var id := OccurrenceOf(job, due.scheduledAt);
            && (r.Failure? ==> t == s)
            && (r.Success? ==>
                  && id in t.occurrences
                  && (id !in s.occurrences ==>
                        || ClaimedFirst(t.occurrences[id], job, due, stamp)
                        || (SkippedBecause(t.occurrences[id], job, due, stamp, "overlap") && job in s.jobs
                            && s.jobs[job].definition.overlap == OverlapSkip)))
  {
    hide ValidateScheduleAdvance, LiveOverlap, DurablyAfter;
  }

  lemma SkipWrites(world: World, s: Store, job: string, due: Due, stamp: Stamp, reason: string)
    ensures var (t, error) := SkipSpec(world, s, SkipFor(job, due, stamp, reason));
            var id := OccurrenceOf(job, due.scheduledAt);
            && (error.Some? ==> t == s)
            && (error.None? ==>
                  && id in t.occurrences
                  && (id !in s.occurrences ==> SkippedBecause(t.occurrences[id], job, due, stamp, reason)))
  {
    hide ValidateScheduleAdvance, DurablyAfter;
  }

  /** The record of an occurrence that was claimed again. */
  predicate ClaimedAgain(before: Record, record: Record, stamp: Stamp) {
    && record.status == Running && record.attempt == (before.attempt + 1) % TWO_TO_THE_32
    && record.startedAt == stamp.clock && record.leaseOwner == stamp.owner && record.leaseToken == stamp.token
    && record.leaseUntil == stamp.clock + stamp.lease
  }

  // Recovery goes through the expired occurrences in order and claims each for the instant it was scheduled at: one that
  // still runs under a lease that is over is claimed again under the replica's own token and lease, and any other, or one
  // beside which another runs, stays as it is.
  lemma RecoveredAgain(subject: Subject, sys: System, id: nat, stamp: Stamp)
    requires WellKept(sys.store) && id in sys.replicas && sys.replicas[id].expired != []
    requires OccurrenceOf(subject.job, sys.replicas[id].expired[0].scheduledAt) in sys.store.occurrences
    ensures var replica, (t, error) := sys.replicas[id], Perform(subject, sys, Recover(id, stamp));
            var occurrence := OccurrenceOf(subject.job, replica.expired[0].scheduledAt);
            var before := sys.store.occurrences[occurrence];
            var over := before.status == Running && !DurablyAfter(before.leaseUntil, stamp.clock);
            var next := S.Next(subject.world, replica.schedule, before.scheduledAt);
            && (error.Some? || next.Failure? ==> t == Stop(sys, id))
            && (error.None? && next.Success? ==>
                  && id in t.replicas && occurrence in t.store.occurrences
                  && t.replicas[id]
                     == replica.(expired := replica.expired[1..],
                                 cursor := if replica.cursor <= next.value then next.value else replica.cursor)
                  && (!over ==> t.store.occurrences[occurrence] == before)
                  && (over ==>
                        || ClaimedAgain(before, t.store.occurrences[occurrence], stamp)
                        || (t.store == sys.store
                            && subject.job in sys.store.jobs && sys.store.jobs[subject.job].definition.overlap == OverlapSkip
                            && LiveOverlap(sys.store.occurrences, subject.job, Some(occurrence), stamp.clock))))
  {
    var replica := sys.replicas[id];
    var at := replica.expired[0].scheduledAt;
    if S.Next(subject.world, replica.schedule, at).Success? {
      ReclaimWrites(subject.world, sys.store, subject.job, Due(at, S.Next(subject.world, replica.schedule, at).value), stamp);
    }
    hide ClaimSpec, S.Next, ClaimedAgain, LiveOverlap, WellKept;
  }

  lemma ReclaimWrites(world: World, s: Store, job: string, due: Due, stamp: Stamp)
    requires WellKept(s) && OccurrenceOf(job, due.scheduledAt) in s.occurrences
    ensures var (t, r) := ClaimSpec(world, s, ClaimFor(job, due, stamp));
            var id := OccurrenceOf(job, due.scheduledAt);
            var before := s.occurrences[id];
            var over := before.status == Running && !DurablyAfter(before.leaseUntil, stamp.clock);
            && (r.Failure? ==> t == s)
            && (r.Success? ==>
                  && id in t.occurrences && (!over ==> t.occurrences[id] == before)
                  && (over ==>
                        || ClaimedAgain(before, t.occurrences[id], stamp)
                        || (t == s && job in s.jobs && s.jobs[job].definition.overlap == OverlapSkip
                            && LiveOverlap(s.occurrences, job, Some(id), stamp.clock))))
  {
    hide ValidateScheduleAdvance, LiveOverlap, DurablyAfter;
  }
}
