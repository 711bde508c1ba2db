/** What a stored occurrence and a store's answers say, told from the operations before them (pkg/cron/store.go). */
module CronRecords {
  import opened Wrappers
  import opened GoIntegers
  import opened CronTime
  import opened CronStore
  import opened CronRuns
  import S = CronSchedule

  /** How an occurrence ended: by a completion, a skip, or the overlap policy. */
  datatype Ending = Ending(status: Status, at: Instant, error: string, skipReason: string)

  /** The claims and renewals that an occurrence's lease comes from, and how it ended. */
  datatype History = History(claim: Option<ClaimRequest>, attempts: nat, leaseUntil: Instant, touched: Instant,
                             ending: Option<Ending>)

  const UNTOUCHED := History(None, 0, 0, 0, None)

  /** What one operation with its outcome adds to an occurrence's history. */
  function Tell(h: History, op: Operation, outcome: Outcome, id: OccurrenceId): History
    requires op.Claim? <==> outcome.Claimed?
  {
    match op
    case Reconcile(_, _) => h
    case Claim(q) =>
      if q.occurrenceId != id || outcome.result.Failure? then h
      else
        (match outcome.result.value.disposition
         case Acquired => h.(claim := Some(q), attempts := h.attempts + 1, leaseUntil := q.leaseUntil, touched := q.claimedAt)
         case SkippedOverlap => h.(ending := Some(Ending(Skipped, q.claimedAt, "", "overlap")))
         case AlreadyTerminal => h
         case LeaseHeld => h)
    case Renew(q) =>
      if q.occurrenceId == id && outcome.error.None? then h.(leaseUntil := q.leaseUntil, touched := q.renewedAt) else h
    case Complete(q) =>
      if q.occurrenceId == id && outcome.error.None? then h.(ending := Some(Ending(q.status, q.finishedAt, q.error, "")))
      else h
    case SkipRun(q) =>
      if q.occurrenceId == id && outcome.error.None? && h.ending.None? then
        h.(ending := Some(Ending(Skipped, q.skippedAt, "", q.reason)))
      else h
  }

  function HistoryAt(run: Run, k: nat, id: OccurrenceId): History
    requires k <= |run.ops|
  {
    if k == 0 then UNTOUCHED
    else Tell(HistoryAt(run, k - 1, id), run.ops[k - 1], OutcomeAt(run, k - 1), id)
  }

  /** The record that a history leaves. */
  predicate RecordOf(record: Record, id: OccurrenceId, h: History) {
    && record.id == id == OccurrenceOf(record.jobName, record.scheduledAt)
    && record.attempt == h.attempts % TWO_TO_THE_32
    && (h.claim.None? ==> h.attempts == 0 && record.startedAt == 0)
    && (h.claim.Some? ==> record.startedAt == h.claim.value.claimedAt)
    && match h.ending
       case Some(Ending(status, at, error, skipReason)) =>
         && record.status == status && status in {Succeeded, Failed, Canceled, Skipped}
         && record.finishedAt == record.lastModified == at && record.error == error && record.skipReason == skipReason
         && record.leaseOwner == record.leaseToken == "" && record.leaseUntil == 0
       case None =>
         && record.status == Running && record.finishedAt == 0 && record.error == record.skipReason == ""
         && h.claim.Some? && record.leaseOwner == h.claim.value.leaseOwner && record.leaseToken == h.claim.value.leaseToken
         && record.leaseUntil == h.leaseUntil && record.lastModified == h.touched
  }

  predicate Remembers(s: Store, id: OccurrenceId, h: History) {
    && (id in s.occurrences <==> h.claim.Some? || h.ending.Some?)
    && (id in s.occurrences ==> RecordOf(s.occurrences[id], id, h))
    && (id !in s.occurrences ==> h == UNTOUCHED)
  }

  lemma ClaimExistingTells(s: Store, q: ClaimRequest, id: OccurrenceId, h: History)
    requires WellKept(s) && Remembers(s, id, h) && q.jobName in s.jobs && q.occurrenceId in s.occurrences
    requires ValidateClaim(q).None?
    ensures var (s', r) := ClaimExisting(s, q); Remembers(s', id, Tell(h, Claim(q), Claimed(r), id))
  {
    hide DurablyAfter, LiveOverlap, ValidateClaim;
  }

  lemma ClaimNewTells(s: Store, q: ClaimRequest, id: OccurrenceId, h: History)
    requires WellKept(s) && Remembers(s, id, h) && q.jobName in s.jobs && q.occurrenceId !in s.occurrences
    requires ValidateClaim(q).None?
    ensures var (s', r) := ClaimNew(s, q); Remembers(s', id, Tell(h, Claim(q), Claimed(r), id))
  {
    hide DurablyAfter, LiveOverlap;
  }

  lemma ClaimTells(world: World, s: Store, q: ClaimRequest, id: OccurrenceId, h: History)
    requires WellKept(s) && Remembers(s, id, h)
    ensures var (s', r) := ClaimSpec(world, s, q); Remembers(s', id, Tell(h, Claim(q), Claimed(r), id))
  {
    if ValidateClaim(q).None? && q.jobName in s.jobs {
      if q.occurrenceId in s.occurrences {
        ClaimExistingTells(s, q, id, h);
      } else {
        ClaimNewTells(s, q, id, h);
      }
    }
    hide ClaimExisting, ClaimNew, ValidateClaim, ValidateScheduleAdvance, RecordOf, WellKept;
  }

  lemma RenewTells(s: Store, q: Renewal, id: OccurrenceId, h: History)
    requires Remembers(s, id, h)
    ensures var (s', error) := RenewSpec(s, q); Remembers(s', id, Tell(h, Renew(q), Answered(error), id))
  {
    hide DurablyAfter;
  }

  lemma CompleteTells(s: Store, q: Completion, id: OccurrenceId, h: History)
    requires Remembers(s, id, h)
    ensures var (s', error) := CompleteSpec(s, q); Remembers(s', id, Tell(h, Complete(q), Answered(error), id))
  {
    hide DurablyAfter;
  }

  lemma SkipTells(world: World, s: Store, q: SkipRequest, id: OccurrenceId, h: History)
    requires WellKept(s) && Remembers(s, id, h)
    ensures var (s', error) := SkipSpec(world, s, q); Remembers(s', id, Tell(h, SkipRun(q), Answered(error), id))
  {
    hide DurablyAfter, ValidateScheduleAdvance;
  }

  lemma ApplyTells(world: World, s: Store, op: Operation, id: OccurrenceId, h: History)
    requires WellKept(s) && Remembers(s, id, h)
    ensures var (s', outcome) := Apply(world, s, op); Remembers(s', id, Tell(h, op, outcome, id))
  {
    match op {
      case Reconcile(_, _) =>
      case Claim(q) => ClaimTells(world, s, q, id, h);
      case Renew(q) => RenewTells(s, q, id, h);
      case Complete(q) => CompleteTells(s, q, id, h);
      case SkipRun(q) => SkipTells(world, s, q, id, h);
    }
    hide ClaimSpec, RenewSpec, CompleteSpec, SkipSpec, ReconcileAll, RecordOf, WellKept, Tell;
  }

  // Over every run, every stored record is what the requests that succeeded say: attempts and start are the claims',
  // the lease is the last acquired claim's or accepted renewal's while it runs, and status, error, reason and finish are
  // those of the one operation that ended it, for ever after.
  lemma {:induction false} RecordIsItsHistory(run: Run, k: nat, id: OccurrenceId)
    requires k <= |run.ops|
    ensures Remembers(StateAt(run, k), id, HistoryAt(run, k, id))
  {
    hide Apply, WellKept, Remembers, Tell;
    if k == 0 {
      EmptyRemembers(id);
    } else {
      RecordIsItsHistory(run, k - 1, id);
      AlwaysWellKept(run, k - 1);
      ApplyTells(run.world, StateAt(run, k - 1), run.ops[k - 1], id, HistoryAt(run, k - 1, id));
    }
  }

  lemma EmptyRemembers(id: OccurrenceId)
    ensures Remembers(EMPTY, id, UNTOUCHED)
  {
  }

  // What a successful completion says is what its occurrence says in every later state; its other fields stay.
  lemma CompletionIsForever(run: Run, i: nat, k: nat, id: OccurrenceId)
    requires i < k <= |run.ops| && Completes(run, i, id)
    ensures id in StateAt(run, i).occurrences && id in StateAt(run, k).occurrences
    ensures var q, before, after := run.ops[i].completion, StateAt(run, i).occurrences[id], StateAt(run, k).occurrences[id];
            && after.status == q.status && after.error == q.error && after.finishedAt == q.finishedAt
            && after.id == before.id && after.jobName == before.jobName && after.scheduledAt == before.scheduledAt
            && after.attempt == before.attempt && after.startedAt == before.startedAt
            && after.leaseToken == after.leaseOwner == "" && after.leaseUntil == 0
  {
    SuccessfulCompleteOwned(run, i, id);
    assert id in StateAt(run, i).occurrences;
    RecordIsItsHistory(run, i, id);
    RecordIsItsHistory(run, i + 1, id);
    TerminalIsForever(run, i + 1, k, id);
    assert HistoryAt(run, i + 1, id) == Tell(HistoryAt(run, i, id), run.ops[i], OutcomeAt(run, i), id);
    hide StateAt, HistoryAt, OutcomeAt, Owns, DurablyAfter;
    EndedRecord(StateAt(run, i), StateAt(run, i + 1), id, HistoryAt(run, i, id), run.ops[i].completion);
  }

  lemma EndedRecord(s: Store, t: Store, id: OccurrenceId, h: History, q: Completion)
    requires Remembers(s, id, h) && id in s.occurrences && q.occurrenceId == id
    requires Remembers(t, id, Tell(h, Complete(q), Answered(None), id)) && id in t.occurrences
    ensures var before, after := s.occurrences[id], t.occurrences[id];
            && after.status == q.status && after.error == q.error && after.finishedAt == q.finishedAt
            && after.id == before.id && after.jobName == before.jobName && after.scheduledAt == before.scheduledAt
            && after.attempt == before.attempt && after.startedAt == before.startedAt
            && after.leaseToken == after.leaseOwner == "" && after.leaseUntil == 0
  {
  }

  // ---- Which requests succeed ----

  /** Running under a lease that is live at `now`. */
  predicate Leased(h: History, now: Instant) {
    h.claim.Some? && h.ending.None? && DurablyAfter(h.leaseUntil, now)
  }

  /** The occurrence runs under this token, and its lease is live at `now`. */
  predicate Holds(h: History, token: string, now: Instant) {
    Leased(h, now) && h.claim.value.leaseToken == token
  }

  /** Another occurrence of the job is leased. */
  ghost predicate OthersLeased(run: Run, k: nat, id: OccurrenceId, job: string, now: Instant)
    requires k <= |run.ops|
  {
    exists at: Instant :: OccurrenceOf(job, at) != id && Leased(HistoryAt(run, k, OccurrenceOf(job, at)), now)
  }

  lemma OthersLeasedExactly(run: Run, k: nat, id: OccurrenceId, job: string, now: Instant)
    requires k <= |run.ops| && id.OccurrenceOf?
    ensures OthersLeased(run, k, id, job, now) <==> LiveOverlap(StateAt(run, k).occurrences, job, Some(id), now)
    ensures id !in StateAt(run, k).occurrences ==>
              (LiveOverlap(StateAt(run, k).occurrences, job, Some(id), now)
               <==> LiveOverlap(StateAt(run, k).occurrences, job, None, now))
  {
    var s := StateAt(run, k);
    hide StateAt, HistoryAt, DurablyAfter;
    forall other
      ensures Remembers(s, other, HistoryAt(run, k, other))
    {
      RecordIsItsHistory(run, k, other);
    }
    if OthersLeased(run, k, id, job, now) {
      var at: Instant :| OccurrenceOf(job, at) != id && Leased(HistoryAt(run, k, OccurrenceOf(job, at)), now);
      assert Remembers(s, OccurrenceOf(job, at), HistoryAt(run, k, OccurrenceOf(job, at)));
    }
    if LiveOverlap(s.occurrences, job, Some(id), now) {
      var other :| other in s.occurrences && s.occurrences[other].jobName == job
        && Some(s.occurrences[other].id) != Some(id) && Live(s.occurrences[other], now);
      assert Remembers(s, other, HistoryAt(run, k, other));
      assert other == OccurrenceOf(job, s.occurrences[other].scheduledAt);
    }
    assert forall other | other in s.occurrences :: Remembers(s, other, HistoryAt(run, k, other));
  }

  /** Every field is there and within its bounds. */
  predicate WellFormedClaim(q: ClaimRequest) {
    && q.occurrenceId != IdText("") && q.jobName != "" && 1 <= |q.leaseOwner| <= 128 && 1 <= |q.leaseToken| <= 256
    && q.scheduledAt != 0 && q.nextRunAt != 0 && q.scheduledAt < q.nextRunAt
    && q.claimedAt != 0 && q.leaseUntil != 0 && DurablyAfter(q.leaseUntil, q.claimedAt)
  }

  /** The job's cursor is moved forward to `next`, never back, and the job is marked as updated. */
  predicate Advances(s: Store, t: Store, job: string, next: Instant, now: Instant) {
    && job in s.jobs && t.jobs.Keys == s.jobs.Keys && (forall other | other in s.jobs && other != job :: t.jobs[other] == s.jobs[other])
    && t.jobs[job].definition == s.jobs[job].definition && t.jobs[job].createdAt == s.jobs[job].createdAt
    && t.jobs[job].updatedAt == now
    && t.jobs[job].nextRunAt == if s.jobs[job].nextRunAt <= next then next else s.jobs[job].nextRunAt
  }

  predicate OthersKept(s: Store, t: Store, id: OccurrenceId) {
    t.occurrences - {id} == s.occurrences - {id}
  }

  lemma ClaimAnswers(world: World, s: Store, q: ClaimRequest, h: History, overlapped: bool)
    requires WellKept(s) && Remembers(s, q.occurrenceId, h)
    requires overlapped <==> q.jobName in s.jobs && s.jobs[q.jobName].definition.overlap == OverlapSkip
                             && LiveOverlap(s.occurrences, q.jobName, Some(q.occurrenceId), q.claimedAt)
    requires q.occurrenceId !in s.occurrences ==>
               (LiveOverlap(s.occurrences, q.jobName, Some(q.occurrenceId), q.claimedAt)
                <==> LiveOverlap(s.occurrences, q.jobName, None, q.claimedAt))
    ensures ClaimAnswered(world, s, q, h, overlapped, ClaimSpec(world, s, q).0, ClaimSpec(world, s, q).1)
  {
    hide DurablyAfter, LiveOverlap, NextRun;
  }

  /** The answer to a claim and what it does to the store. */
  predicate ClaimAnswered(world: World, s: Store, q: ClaimRequest, h: History, overlapped: bool, t: Store,
                          r: Result<ClaimResult, StoreError>) {
    var known := WellFormedClaim(q) && q.occurrenceId == OccurrenceOf(q.jobName, q.scheduledAt) && q.jobName in s.jobs;
    var expected := if known then NextRun(world, s.jobs[q.jobName].definition.schedule, q.scheduledAt) else None;
    var placed := known && (h.claim.Some? || h.ending.Some? || s.jobs[q.jobName].nextRunAt == q.scheduledAt);
    && (r.Success? <==> known && expected == Some(q.nextRunAt) && placed)
    && (r == Failure(InvalidConfiguration) <==> !WellFormedClaim(q) || (known && expected.None?))
    && (r == Failure(JobNotFound)
        <==> WellFormedClaim(q) && q.occurrenceId == OccurrenceOf(q.jobName, q.scheduledAt) && q.jobName !in s.jobs)
    && (r.Failure? ==> t == s && r.error in {InvalidConfiguration, JobNotFound, OccurrenceConflict})
    && (r.Success? ==>
          && (r.value.disposition == AlreadyTerminal <==> h.ending.Some?)
          && (r.value.disposition == Acquired <==> h.ending.None? && !Leased(h, q.claimedAt) && !overlapped)
          && (r.value.disposition == SkippedOverlap <==> h.ending.None? && h.claim.None? && overlapped)
          && q.occurrenceId in t.occurrences && r.value.occurrence == t.occurrences[q.occurrenceId]
          && OthersKept(s, t, q.occurrenceId)
          && (if h.ending.None? && h.claim.Some? && !Leased(h, q.claimedAt) && overlapped then t == s
              else Advances(s, t, q.jobName, q.nextRunAt, q.claimedAt)))
  }

  // Claims, exactly: which succeed, what they are told, and what they move.
  lemma ClaimsExactly(run: Run, k: nat)
    requires k < |run.ops| && run.ops[k].Claim?
    ensures var q, s := run.ops[k].claim, StateAt(run, k);
            ClaimAnswered(run.world, s, q, HistoryAt(run, k, q.occurrenceId),
                          q.jobName in s.jobs && s.jobs[q.jobName].definition.overlap == OverlapSkip
                          && OthersLeased(run, k, q.occurrenceId, q.jobName, q.claimedAt),
                          StateAt(run, k + 1), OutcomeAt(run, k).result)
  {
    var q, s := run.ops[k].claim, StateAt(run, k);
    RecordIsItsHistory(run, k, q.occurrenceId);
    AlwaysWellKept(run, k);
    var h := HistoryAt(run, k, q.occurrenceId);
    if q.occurrenceId.OccurrenceOf? {
      OthersLeasedExactly(run, k, q.occurrenceId, q.jobName, q.claimedAt);
      hide ClaimSpec, ClaimAnswered, Remembers, WellKept, OthersLeased, LiveOverlap;
      var overlapped := q.jobName in s.jobs && s.jobs[q.jobName].definition.overlap == OverlapSkip
                        && OthersLeased(run, k, q.occurrenceId, q.jobName, q.claimedAt);
      ClaimAnswers(run.world, s, q, h, overlapped);
    } else {
      hide Remembers, WellKept, OthersLeased, LiveOverlap, NextRun, DurablyAfter;
    }
  }

  // Renewals and completions, exactly: they succeed if and only if they are well formed and the occurrence runs under
  // their token with a live lease, and they touch nothing else.
  lemma RenewalsExactly(run: Run, k: nat)
    requires k < |run.ops| && run.ops[k].Renew?
    ensures var q, s, t := run.ops[k].renewal, StateAt(run, k), StateAt(run, k + 1);
            var proper := q.occurrenceId != IdText("") && 1 <= |q.leaseToken| <= 256 && q.renewedAt != 0 && q.leaseUntil != 0
                          && DurablyAfter(q.leaseUntil, q.renewedAt);
            && t.jobs == s.jobs && OthersKept(s, t, q.occurrenceId)
            && (OutcomeAt(run, k) == Answered(None)
                <==> proper && Holds(HistoryAt(run, k, q.occurrenceId), q.leaseToken, q.renewedAt))
            && (OutcomeAt(run, k) == Answered(Some(InvalidConfiguration)) <==> !proper)
            && (OutcomeAt(run, k) != Answered(None) ==> t == s && OutcomeAt(run, k).error.value in {InvalidConfiguration, LeaseLost})
  {
    RecordIsItsHistory(run, k, run.ops[k].renewal.occurrenceId);
    hide HistoryAt, DurablyAfter;
  }

  lemma CompletionsExactly(run: Run, k: nat)
    requires k < |run.ops| && run.ops[k].Complete?
    ensures var q, s, t := run.ops[k].completion, StateAt(run, k), StateAt(run, k + 1);
            var proper := q.occurrenceId != IdText("") && 1 <= |q.leaseToken| <= 256 && q.finishedAt != 0 && |q.error| <= 4096
                          && (q.status == Failed || q.status == Canceled || (q.status == Succeeded && q.error == ""));
            && t.jobs == s.jobs && OthersKept(s, t, q.occurrenceId)
            && (OutcomeAt(run, k) == Answered(None)
                <==> proper && Holds(HistoryAt(run, k, q.occurrenceId), q.leaseToken, q.finishedAt))
            && (OutcomeAt(run, k) == Answered(Some(InvalidConfiguration)) <==> !proper)
            && (OutcomeAt(run, k) != Answered(None) ==> t == s && OutcomeAt(run, k).error.value in {InvalidConfiguration, LeaseLost})
  {
    RecordIsItsHistory(run, k, run.ops[k].completion.occurrenceId);
    hide HistoryAt, DurablyAfter;
  }

  /** The answer to a skip and what it does to the store. */
  predicate SkipAnswered(world: World, s: Store, q: SkipRequest, h: History, t: Store, error: Option<StoreError>) {
    var wellFormed := q.occurrenceId != IdText("") && q.jobName != "" && q.scheduledAt != 0 && q.nextRunAt != 0
                      && q.skippedAt != 0 && 1 <= |q.reason| <= 4096 && q.scheduledAt < q.nextRunAt;
    var known := wellFormed && q.occurrenceId == OccurrenceOf(q.jobName, q.scheduledAt) && q.jobName in s.jobs;
    var expected := if known then NextRun(world, s.jobs[q.jobName].definition.schedule, q.scheduledAt) else None;
    var open := known && h.ending.None? && expected == Some(q.nextRunAt);
    && (error.None? <==> (known && h.ending.Some?)
                         || (open && !Leased(h, q.skippedAt)
                             && (h.claim.Some? || s.jobs[q.jobName].nextRunAt == q.scheduledAt)))
    && (error == Some(OccurrenceRunning) <==> open && Leased(h, q.skippedAt))
    && (error == Some(InvalidConfiguration) <==> !wellFormed || (known && h.ending.None? && expected.None?))
    && (error == Some(JobNotFound)
        <==> wellFormed && q.occurrenceId == OccurrenceOf(q.jobName, q.scheduledAt) && q.jobName !in s.jobs)
    && (error.Some? ==>
          t == s && error.value in {InvalidConfiguration, JobNotFound, OccurrenceConflict, OccurrenceRunning})
    && OthersKept(s, t, q.occurrenceId)
    && (error.None? ==> if h.ending.Some? then t == s else Advances(s, t, q.jobName, q.nextRunAt, q.skippedAt))
  }

  lemma SkipAnswers(world: World, s: Store, q: SkipRequest, h: History)
    requires WellKept(s) && Remembers(s, q.occurrenceId, h)
    ensures SkipAnswered(world, s, q, h, SkipSpec(world, s, q).0, SkipSpec(world, s, q).1)
  {
    hide DurablyAfter, NextRun;
  }

  lemma SkipsExactly(run: Run, k: nat)
    requires k < |run.ops| && run.ops[k].SkipRun?
    ensures var q := run.ops[k].skip;
            SkipAnswered(run.world, StateAt(run, k), q, HistoryAt(run, k, q.occurrenceId), StateAt(run, k + 1),
                         OutcomeAt(run, k).error)
  {
    var q := run.ops[k].skip;
    RecordIsItsHistory(run, k, q.occurrenceId);
    AlwaysWellKept(run, k);
    hide SkipSpec, SkipAnswered, Remembers, WellKept, HistoryAt;
    SkipAnswers(run.world, StateAt(run, k), q, HistoryAt(run, k, q.occurrenceId));
  }

  lemma AbandonedHistory(s: Store, id: OccurrenceId, h: History, now: Instant)
    requires Remembers(s, id, h)
    ensures Abandoned(s, id, now)
            <==> h.claim.Some? && h.ending.None? && !DurablyAfter(h.leaseUntil, now) && id.OccurrenceOf? && id.job in s.jobs
  {
    hide DurablyAfter;
    if id in s.occurrences {
      assert RecordOf(s.occurrences[id], id, h);
    }
  }

  // What Expired lists are the occurrences of registered jobs that were claimed, have not ended, and whose lease is over.
  lemma AbandonedExactly(run: Run, k: nat, id: OccurrenceId, now: Instant)
    requires k <= |run.ops|
    ensures Abandoned(StateAt(run, k), id, now)
            <==> && HistoryAt(run, k, id).claim.Some? && HistoryAt(run, k, id).ending.None?
                 && !DurablyAfter(HistoryAt(run, k, id).leaseUntil, now)
                 && id.OccurrenceOf? && id.job in StateAt(run, k).jobs
  {
    hide *;
    RecordIsItsHistory(run, k, id);
    AbandonedHistory(StateAt(run, k), id, HistoryAt(run, k, id), now);
  }
}
