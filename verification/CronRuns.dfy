/** Safety of the lease protocol over every sequence of store operations (pkg/cron/store.go). */
module CronRuns {
  import opened Wrappers
  import opened GoIntegers
  import opened CronTime
  import opened CronStore

  datatype Operation =
    | Reconcile(definitions: seq<JobDefinition>, now: Instant)
    | Claim(claim: ClaimRequest)
    | Renew(renewal: Renewal)
    | Complete(completion: Completion)
    | SkipRun(skip: SkipRequest)

  datatype Outcome = Answered(error: Option<StoreError>) | Claimed(result: Result<ClaimResult, StoreError>)

  function Apply(world: World, s: Store, op: Operation): (Store, Outcome) {
    match op
    case Reconcile(definitions, now) => var (s', e) := ReconcileSpec(world, s, definitions, now); (s', Answered(e))
    case Claim(q) => var (s', r) := ClaimSpec(world, s, q); (s', Claimed(r))
    case Renew(q) => var (s', e) := RenewSpec(s, q); (s', Answered(e))
    case Complete(q) => var (s', e) := CompleteSpec(s, q); (s', Answered(e))
    case SkipRun(q) => var (s', e) := SkipSpec(world, s, q); (s', Answered(e))
  }

  /** A run: the platform, and operations from any number of replicas in store order, from an empty store. */
  datatype Run = Run(world: World, ops: seq<Operation>)

  function StateAt(run: Run, k: nat): Store
    requires k <= |run.ops|
  {
    if k == 0 then EMPTY else Apply(run.world, StateAt(run, k - 1), run.ops[k - 1]).0
  }

  function OutcomeAt(run: Run, k: nat): (outcome: Outcome)
    requires k < |run.ops|
    ensures outcome.Claimed? <==> run.ops[k].Claim?
  {
    Apply(run.world, StateAt(run, k), run.ops[k]).1
  }

  predicate AcquiredBy(op: Operation, outcome: Outcome, id: OccurrenceId)
    requires op.Claim? <==> outcome.Claimed?
  {
    op.Claim? && op.claim.occurrenceId == id && outcome.result.Success? && outcome.result.value.disposition == Acquired
  }

  predicate Acquires(run: Run, k: nat, id: OccurrenceId)
    requires k < |run.ops|
  {
    AcquiredBy(run.ops[k], OutcomeAt(run, k), id)
  }

  predicate Completes(run: Run, k: nat, id: OccurrenceId)
    requires k < |run.ops|
  {
    run.ops[k].Complete? && run.ops[k].completion.occurrenceId == id && OutcomeAt(run, k).error.None?
  }

  /** The token of the latest of the first k operations that acquired the occurrence. */
  function LastToken(run: Run, k: nat, id: OccurrenceId): Option<string>
    requires k <= |run.ops|
  {
    if k == 0 then None
    else if run.ops[k - 1].Claim? && Acquires(run, k - 1, id) then Some(run.ops[k - 1].claim.leaseToken)
    else LastToken(run, k - 1, id)
  }

  // LastToken is the token of an acquisition after which there is no other.
  lemma {:induction false} LastTokenIsLatest(run: Run, k: nat, id: OccurrenceId, j: nat) returns (last: nat)
    requires j < k <= |run.ops| && Acquires(run, j, id)
    ensures j <= last < k && Acquires(run, last, id)
    ensures forall i | last < i < k :: !Acquires(run, i, id)
    ensures run.ops[last].Claim? && LastToken(run, k, id) == Some(run.ops[last].claim.leaseToken)
    decreases k
  {
    hide OutcomeAt;
    if Acquires(run, k - 1, id) {
      last := k - 1;
    } else {
      last := LastTokenIsLatest(run, k - 1, id, j);
    }
  }

  function AcquisitionCount(run: Run, k: nat, id: OccurrenceId): nat
    requires k <= |run.ops|
  {
    if k == 0 then 0 else AcquisitionCount(run, k - 1, id) + (if Acquires(run, k - 1, id) then 1 else 0)
  }

  // ---- What every operation keeps ----

  predicate WellKeptRecord(id: OccurrenceId, r: Record) {
    && r.id == id && id == OccurrenceOf(r.jobName, r.scheduledAt)
    && (r.status == Running <==> r.leaseToken != "")
    && (r.status != Running ==> r.leaseUntil == 0 && r.leaseOwner == "")
  }

  /** Records sit under their own deterministic identity, and only running ones carry a lease. */
  predicate WellKept(s: Store) {
    && (forall job | job in s.jobs :: s.jobs[job].definition.name == job)
    && (forall id | id in s.occurrences :: WellKeptRecord(id, s.occurrences[id]))
  }

  lemma ReconcileKeepsNames(world: World, jobs: map<string, JobState>, definitions: seq<JobDefinition>, now: Instant)
    requires ReconcileAll(world, jobs, definitions, now).Success?
    ensures var active := ReconcileAll(world, jobs, definitions, now).value;
            forall job | job in active :: active[job].definition.name == job
  {
    if definitions != [] {
      ReconcileKeepsNames(world, jobs, definitions[..|definitions| - 1], now);
    }
  }

  lemma ClaimKeepsWellKept(world: World, s: Store, q: ClaimRequest)
    requires WellKept(s)
    ensures WellKept(ClaimSpec(world, s, q).0)
  {
    hide ValidateScheduleAdvance, DurablyAfter, LiveOverlap;
  }

  lemma SkipKeepsWellKept(world: World, s: Store, q: SkipRequest)
    requires WellKept(s)
    ensures WellKept(SkipSpec(world, s, q).0)
  {
    hide ValidateScheduleAdvance, DurablyAfter;
  }

  lemma ApplyKeepsWellKept(world: World, s: Store, op: Operation)
    requires WellKept(s)
    ensures WellKept(Apply(world, s, op).0)
  {
    hide ClaimSpec, SkipSpec, DurablyAfter;
    if op.Claim? {
      ClaimKeepsWellKept(world, s, op.claim);
    } else if op.SkipRun? {
      SkipKeepsWellKept(world, s, op.skip);
    } else if op.Reconcile? && ReconcileAll(world, s.jobs, op.definitions, op.now).Success? {
      ReconcileKeepsNames(world, s.jobs, op.definitions, op.now);
    }
  }

  lemma {:induction false} AlwaysWellKept(run: Run, k: nat)
    requires k <= |run.ops|
    ensures WellKept(StateAt(run, k))
  {
    hide Apply, WellKept;
    if k == 0 {
      assert WellKept(EMPTY) by { EmptyIsWellKept(); }
    } else {
      AlwaysWellKept(run, k - 1);
      ApplyKeepsWellKept(run.world, StateAt(run, k - 1), run.ops[k - 1]);
    }
  }

  lemma EmptyIsWellKept()
    ensures WellKept(EMPTY)
  {
  }

  // In a well-kept store the identity check behind a claim or skip can never fail.
  lemma IdentityNeverConflicts(s: Store, job: string, at: Instant)
    requires WellKept(s) && OccurrenceOf(job, at) in s.occurrences
    ensures SameOccurrence(s.occurrences[OccurrenceOf(job, at)], job, at)
  {
  }

  // ---- Fencing ----

  lemma ClaimKeepsTerminal(world: World, s: Store, q: ClaimRequest, id: OccurrenceId)
    requires id in s.occurrences && WellKept(s)
    ensures id in ClaimSpec(world, s, q).0.occurrences
    ensures s.occurrences[id].status != Running ==> ClaimSpec(world, s, q).0.occurrences[id] == s.occurrences[id]
  {
    hide ValidateScheduleAdvance, ValidateClaim, DurablyAfter, LiveOverlap;
  }

  lemma ApplyKeepsTerminal(world: World, s: Store, op: Operation, id: OccurrenceId)
    requires id in s.occurrences && WellKept(s)
    ensures id in Apply(world, s, op).0.occurrences
    ensures s.occurrences[id].status != Running ==> Apply(world, s, op).0.occurrences[id] == s.occurrences[id]
  {
    hide ClaimSpec, ValidateScheduleAdvance, ReconcileAll, DurablyAfter;
    if op.Claim? {
      ClaimKeepsTerminal(world, s, op.claim, id);
    }
  }

  // Once an occurrence has left running, its record never changes again.
  lemma {:induction false} TerminalIsForever(run: Run, i: nat, j: nat, id: OccurrenceId)
    requires i <= j <= |run.ops| && id in StateAt(run, i).occurrences
    ensures id in StateAt(run, j).occurrences
    ensures StateAt(run, i).occurrences[id].status != Running ==>
              StateAt(run, j).occurrences[id] == StateAt(run, i).occurrences[id]
    decreases j
  {
    hide Apply, WellKept;
    if i < j {
      TerminalIsForever(run, i, j - 1, id);
      AlwaysWellKept(run, j - 1);
      ApplyKeepsTerminal(run.world, StateAt(run, j - 1), run.ops[j - 1], id);
    }
  }

  /** What the record of an occurrence says about the acquisitions so far. */
  predicate Accounts(run: Run, k: nat, id: OccurrenceId)
    requires k <= |run.ops|
  {
    var s := StateAt(run, k);
    && (id !in s.occurrences ==> AcquisitionCount(run, k, id) == 0)
    && (id in s.occurrences ==>
          && s.occurrences[id].attempt == AcquisitionCount(run, k, id) % TWO_TO_THE_32
          && (s.occurrences[id].status == Running ==> LastToken(run, k, id) == Some(s.occurrences[id].leaseToken)))
  }

  /** How one operation may change the record of an occurrence, given whether it acquired it. */
  predicate RecordStep(s: Store, s': Store, id: OccurrenceId, acquired: bool, token: string) {
    if acquired then
      && id in s'.occurrences && s'.occurrences[id].leaseToken == token && s'.occurrences[id].status == Running
      && s'.occurrences[id].attempt == ((if id in s.occurrences then s.occurrences[id].attempt else 0) + 1) % TWO_TO_THE_32
    else if id in s.occurrences then
      && id in s'.occurrences && s'.occurrences[id].attempt == s.occurrences[id].attempt
      && (s'.occurrences[id].status == Running ==>
            s.occurrences[id].status == Running && s'.occurrences[id].leaseToken == s.occurrences[id].leaseToken)
    else
      id in s'.occurrences ==> s'.occurrences[id].attempt == 0 && s'.occurrences[id].status != Running
  }

  lemma ClaimExistingStep(s: Store, q: ClaimRequest, id: OccurrenceId)
    requires WellKept(s) && q.jobName in s.jobs && q.occurrenceId in s.occurrences
    ensures var (s', r) := ClaimExisting(s, q);
            RecordStep(s, s', id, q.occurrenceId == id && r.Success? && r.value.disposition == Acquired, q.leaseToken)
  {
    hide DurablyAfter, LiveOverlap;
  }

  lemma ClaimNewStep(s: Store, q: ClaimRequest, id: OccurrenceId)
    requires WellKept(s) && q.jobName in s.jobs && q.occurrenceId !in s.occurrences
    ensures var (s', r) := ClaimNew(s, q);
            RecordStep(s, s', id, q.occurrenceId == id && r.Success? && r.value.disposition == Acquired, q.leaseToken)
  {
    hide DurablyAfter, LiveOverlap;
  }

  lemma ClaimStep(world: World, s: Store, q: ClaimRequest, id: OccurrenceId)
    requires WellKept(s)
    ensures var (s', r) := ClaimSpec(world, s, q);
            RecordStep(s, s', id, q.occurrenceId == id && r.Success? && r.value.disposition == Acquired, q.leaseToken)
  {
    hide ValidateScheduleAdvance, ValidateClaim, DurablyAfter, LiveOverlap;
    if q.jobName in s.jobs {
      if q.occurrenceId in s.occurrences {
        ClaimExistingStep(s, q, id);
      } else {
        ClaimNewStep(s, q, id);
      }
    }
    hide ClaimExisting, ClaimNew;
  }

  lemma ApplyStep(world: World, s: Store, op: Operation, id: OccurrenceId)
    requires WellKept(s)
    ensures var (s', outcome) := Apply(world, s, op);
            RecordStep(s, s', id, AcquiredBy(op, outcome, id), if op.Claim? then op.claim.leaseToken else "")
  {
    hide ClaimSpec, ValidateScheduleAdvance, ReconcileAll, DurablyAfter;
    if op.Claim? {
      ClaimStep(world, s, op.claim, id);
    }
  }

  // Attempt counts the acquired claims (as a uint32), and a running record carries the last one's token.
  lemma {:induction false} AcquisitionsAccounted(run: Run, k: nat, id: OccurrenceId)
    requires k <= |run.ops|
    ensures Accounts(run, k, id)
  {
    hide Apply, WellKept;
    if k > 0 {
      AcquisitionsAccounted(run, k - 1, id);
      AlwaysWellKept(run, k - 1);
      ApplyStep(run.world, StateAt(run, k - 1), run.ops[k - 1], id);
    }
  }

  lemma SuccessfulCompleteOwned(run: Run, k: nat, id: OccurrenceId)
    requires k < |run.ops| && Completes(run, k, id)
    ensures Owns(StateAt(run, k), id, run.ops[k].completion.leaseToken, run.ops[k].completion.finishedAt)
    ensures id in StateAt(run, k + 1).occurrences && StateAt(run, k + 1).occurrences[id].status != Running
  {
  }

  // At most one Complete of an occurrence succeeds over a whole run, and it carries the last acquired token.
  lemma OneCompletion(run: Run, i: nat, j: nat, id: OccurrenceId)
    requires i < |run.ops| && j < |run.ops| && Completes(run, i, id) && Completes(run, j, id)
    ensures i == j
    ensures LastToken(run, i, id) == Some(run.ops[i].completion.leaseToken)
  {
    hide Apply, Completes;
    AcquisitionsAccounted(run, i, id);
    SuccessfulCompleteOwned(run, i, id);
    SuccessfulCompleteOwned(run, j, id);
    if i < j {
      TerminalIsForever(run, i + 1, j, id);
    } else if j < i {
      TerminalIsForever(run, j + 1, i, id);
    }
  }

  /** Every claim of the run brings its own lease token. */
  predicate FreshTokens(run: Run) {
    forall i, j | 0 <= i < j < |run.ops| && run.ops[i].Claim? && run.ops[j].Claim? ::
      run.ops[i].claim.leaseToken != run.ops[j].claim.leaseToken
  }

  lemma NotOwned(s: Store, op: Operation, world: World)
    requires op.Renew? ==> ValidRenewal(op.renewal)
                           && !Owns(s, op.renewal.occurrenceId, op.renewal.leaseToken, op.renewal.renewedAt)
    requires op.Complete? ==> ValidCompletion(op.completion)
                              && !Owns(s, op.completion.occurrenceId, op.completion.leaseToken, op.completion.finishedAt)
    requires op.Renew? || op.Complete?
    ensures Apply(world, s, op) == (s, Answered(Some(LeaseLost)))
  {
  }

  // A token that a later claim has superseded is fenced for good: a well-formed Renew or Complete with it
  // reports a lost lease and changes nothing.
  lemma SupersededTokenIsFenced(run: Run, i: nat, j: nat, k: nat, id: OccurrenceId)
    requires FreshTokens(run) && i < j < k < |run.ops| && Acquires(run, i, id) && Acquires(run, j, id)
    ensures var token, op := run.ops[i].claim.leaseToken, run.ops[k];
            (op.Renew? && op.renewal.occurrenceId == id && op.renewal.leaseToken == token && ValidRenewal(op.renewal))
            || (op.Complete? && op.completion.occurrenceId == id && op.completion.leaseToken == token
                && ValidCompletion(op.completion)) ==>
              StateAt(run, k + 1) == StateAt(run, k) && OutcomeAt(run, k) == Answered(Some(LeaseLost))
  {
    hide Apply;
    var last := LastTokenIsLatest(run, k, id, j);
    assert run.ops[last].claim.leaseToken != run.ops[i].claim.leaseToken;
    AcquisitionsAccounted(run, k, id);
    var op := run.ops[k];
    if (op.Renew? && op.renewal.occurrenceId == id && op.renewal.leaseToken == run.ops[i].claim.leaseToken
        && ValidRenewal(op.renewal))
       || (op.Complete? && op.completion.occurrenceId == id && op.completion.leaseToken == run.ops[i].claim.leaseToken
           && ValidCompletion(op.completion)) {
      NotOwned(StateAt(run, k), op, run.world);
    }
  }
}
