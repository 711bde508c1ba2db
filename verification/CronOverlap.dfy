/** The overlap policy over every run: at most one live lease per job, and exactly when (pkg/cron/store.go). */
module CronOverlap {
  import opened Wrappers
  import opened GoIntegers
  import opened CronTime
  import opened CronStore
  import opened CronRuns
  import S = CronSchedule

  predicate SkipsOverlap(s: Store, job: string) {
    job in s.jobs ==> s.jobs[job].definition.overlap == OverlapSkip
  }

  predicate AtMostOneLive(s: Store, job: string, now: Instant) {
    forall a, b | a in s.occurrences && b in s.occurrences
      && s.occurrences[a].jobName == job && s.occurrences[b].jobName == job
      && Live(s.occurrences[a], now) && Live(s.occurrences[b], now) :: a == b
  }

  /** Operation i acquired an occurrence of the job. */
  predicate AcquiresFor(run: Run, i: nat, job: string)
    requires i < |run.ops|
  {
    run.ops[i].Claim? && run.ops[i].claim.jobName == job && Acquires(run, i, run.ops[i].claim.occurrenceId)
  }

  /** The store accepts the renewal, and it is for an occurrence of the job. */
  predicate RenewsFor(s: Store, q: Renewal, job: string) {
    RenewSpec(s, q).1.None? && q.occurrenceId in s.occurrences && s.occurrences[q.occurrenceId].jobName == job
  }

  /** Operation i is an accepted renewal of an occurrence of the job. */
  predicate RenewalFor(run: Run, i: nat, job: string)
    requires i < |run.ops|
  {
    run.ops[i].Renew? && RenewsFor(StateAt(run, i), run.ops[i].renewal, job)
  }

  /** No acquired claim of the job among the first k operations is stamped after `now`. */
  predicate AfterClaims(run: Run, k: nat, job: string, now: Instant)
    requires k <= |run.ops|
  {
    forall i | 0 <= i < k && AcquiresFor(run, i, job) :: run.ops[i].claim.claimedAt <= now
  }

  predicate OtherLive(s: Store, id: OccurrenceId, job: string, now: Instant) {
    exists other | other in s.occurrences && other != id ::
      s.occurrences[other].jobName == job && Live(s.occurrences[other], now)
  }

  /** At `now` the renewal brings a lease back that is no longer live, beside another live lease of the job. */
  predicate Revives(s: Store, q: Renewal, now: Instant) {
    && q.occurrenceId in s.occurrences && !Live(s.occurrences[q.occurrenceId], now) && DurablyAfter(q.leaseUntil, now)
    && OtherLive(s, q.occurrenceId, s.occurrences[q.occurrenceId].jobName, now)
  }

  lemma LiveEarlier(record: Record, earlier: Instant, now: Instant)
    requires earlier <= now && Live(record, now)
    ensures Live(record, earlier)
  {
  }

  lemma LapsedStays(record: Record, earlier: Instant, now: Instant)
    requires earlier <= now && !Live(record, earlier)
    ensures !Live(record, now)
  {
  }

  lemma AcquiredAlone(world: World, s: Store, q: ClaimRequest)
    requires WellKept(s) && SkipsOverlap(s, q.jobName)
    requires AcquiredBy(Claim(q), Apply(world, s, Claim(q)).1, q.occurrenceId)
    ensures !OtherLive(s, q.occurrenceId, q.jobName, q.claimedAt)
  {
    hide ValidateScheduleAdvance, ValidateClaim, DurablyAfter;
  }

  // An acquired claim finds no other live lease at its own time, and so leaves one live lease from then on.
  lemma AcquisitionLeavesOneLive(world: World, s: Store, q: ClaimRequest, now: Instant)
    requires WellKept(s) && SkipsOverlap(s, q.jobName) && q.claimedAt <= now
    requires AcquiredBy(Claim(q), Apply(world, s, Claim(q)).1, q.occurrenceId)
    ensures AtMostOneLive(ClaimSpec(world, s, q).0, q.jobName, now)
  {
    AcquiredAlone(world, s, q);
    var s' := ClaimSpec(world, s, q).0;
    assert forall id | id in s'.occurrences && id != q.occurrenceId ::
        id in s.occurrences && s'.occurrences[id] == s.occurrences[id] by {
      hide ValidateScheduleAdvance, ValidateClaim, LiveOverlap, DurablyAfter;
    }
    hide ClaimSpec, WellKept;
    forall id | id in s'.occurrences && id != q.occurrenceId && s'.occurrences[id].jobName == q.jobName
      ensures !Live(s'.occurrences[id], now)
    {
      LapsedStays(s.occurrences[id], q.claimedAt, now);
    }
  }

  // The exact step: an accepted renewal keeps at most one live lease if and only if it does not revive a lapsed one
  // beside another, that is, if and only if its lease is still live, will not be live, or is the only one.
  lemma RenewalKeepsOneLiveExactly(s: Store, q: Renewal, job: string, now: Instant)
    requires RenewsFor(s, q, job) && AtMostOneLive(s, job, now)
    ensures AtMostOneLive(RenewSpec(s, q).0, job, now) <==> !Revives(s, q, now)
  {
    var s' := RenewSpec(s, q).0;
    var id := q.occurrenceId;
    assert forall other | other in s.occurrences && other != id :: s'.occurrences[other] == s.occurrences[other];
    assert Live(s'.occurrences[id], now) <==> DurablyAfter(q.leaseUntil, now);
    hide RenewSpec, DurablyAfter;
    if Revives(s, q, now) {
      var other :| other in s.occurrences && other != id && s.occurrences[other].jobName == job && Live(s.occurrences[other], now);
      assert Live(s'.occurrences[other], now);
    }
  }

  lemma OtherStepKeepsOneLive(world: World, s: Store, op: Operation, job: string, now: Instant)
    requires WellKept(s) && AtMostOneLive(s, job, now)
    requires op.Claim? && op.claim.jobName == job ==> !AcquiredBy(op, Apply(world, s, op).1, op.claim.occurrenceId)
    requires op.Renew? ==> !RenewsFor(s, op.renewal, job)
    ensures AtMostOneLive(Apply(world, s, op).0, job, now)
  {
    hide NextRun, DurablyAfter, ReconcileAll, ValidateScheduleAdvance, ValidateClaim, LiveOverlap;
  }

  /** One operation, whatever it is, keeps at most one live lease unless it revives one. */
  lemma StepKeepsOneLive(run: Run, k: nat, job: string, now: Instant)
    requires k < |run.ops| && SkipsOverlap(StateAt(run, k), job) && AfterClaims(run, k + 1, job, now)
    requires AtMostOneLive(StateAt(run, k), job, now)
    requires RenewalFor(run, k, job) ==> !Revives(StateAt(run, k), run.ops[k].renewal, now)
    ensures AtMostOneLive(StateAt(run, k + 1), job, now)
  {
    var s, op := StateAt(run, k), run.ops[k];
    AlwaysWellKept(run, k);
    hide AtMostOneLive, WellKept, RenewSpec, ClaimSpec, Revives;
    if AcquiresFor(run, k, job) {
      assert op.claim.claimedAt <= now;
      AcquisitionLeavesOneLive(run.world, s, op.claim, now);
    } else if RenewalFor(run, k, job) {
      RenewalKeepsOneLiveExactly(s, op.renewal, job, now);
    } else {
      OtherStepKeepsOneLive(run.world, s, op, job, now);
    }
  }

  lemma EmptyHasNoneLive(job: string, now: Instant)
    ensures AtMostOneLive(EMPTY, job, now)
  {
  }

  lemma {:induction false} NoRevivalNoOverlap(run: Run, k: nat, job: string, now: Instant)
    requires k <= |run.ops| && (forall i | 0 <= i < k :: SkipsOverlap(StateAt(run, i), job))
    requires forall i, t | 0 <= i < k && RenewalFor(run, i, job) && AfterClaims(run, i, job, t) ::
               !Revives(StateAt(run, i), run.ops[i].renewal, t)
    requires AfterClaims(run, k, job, now)
    ensures AtMostOneLive(StateAt(run, k), job, now)
  {
    hide AtMostOneLive, Apply, Revives;
    if k == 0 {
      EmptyHasNoneLive(job, now);
    } else {
      assert AfterClaims(run, k - 1, job, now);
      NoRevivalNoOverlap(run, k - 1, job, now);
      StepKeepsOneLive(run, k - 1, job, now);
    }
  }

  // Overlap exclusion, exactly. While a job's policy is skip, whatever the replicas, the other jobs and the clocks do:
  // in every state, at every time not before the acquired claims so far, at most one of its occurrences runs under a
  // live lease, if and only if no accepted renewal revives a lapsed lease beside another live one.
  lemma OverlapExactly(run: Run, k: nat, job: string)
    requires k <= |run.ops| && (forall i | 0 <= i < k :: SkipsOverlap(StateAt(run, i), job))
    ensures (forall i, now | 0 <= i <= k && AfterClaims(run, i, job, now) :: AtMostOneLive(StateAt(run, i), job, now))
            <==> (forall i, now | 0 <= i < k && RenewalFor(run, i, job) && AfterClaims(run, i, job, now) ::
                    !Revives(StateAt(run, i), run.ops[i].renewal, now))
  {
    hide AtMostOneLive, Revives, StateAt;
    if forall i, now | 0 <= i <= k && AfterClaims(run, i, job, now) :: AtMostOneLive(StateAt(run, i), job, now) {
      forall i, now | 0 <= i < k && RenewalFor(run, i, job) && AfterClaims(run, i, job, now)
        ensures !Revives(StateAt(run, i), run.ops[i].renewal, now)
      {
        assert AfterClaims(run, i + 1, job, now);
        RenewalStep(run, i, job);
        RenewalKeepsOneLiveExactly(StateAt(run, i), run.ops[i].renewal, job, now);
      }
    }
    if forall i, now | 0 <= i < k && RenewalFor(run, i, job) && AfterClaims(run, i, job, now) ::
         !Revives(StateAt(run, i), run.ops[i].renewal, now) {
      forall i, now | 0 <= i <= k && AfterClaims(run, i, job, now)
        ensures AtMostOneLive(StateAt(run, i), job, now)
      {
        NoRevivalNoOverlap(run, i, job, now);
      }
    }
  }

  lemma RenewalStep(run: Run, i: nat, job: string)
    requires i < |run.ops| && RenewalFor(run, i, job)
    ensures StateAt(run, i + 1) == RenewSpec(StateAt(run, i), run.ops[i].renewal).0
  {
  }

  /** Each accepted renewal of the job is stamped not before the earlier acquired claims of the job. */
  predicate RenewalsInOrder(run: Run, k: nat, job: string)
    requires k <= |run.ops|
  {
    forall i | 0 <= i < k && RenewalFor(run, i, job) :: AfterClaims(run, i, job, run.ops[i].renewal.renewedAt)
  }

  /** A renewal's own lease is live when it is stamped, so it revives nothing if it was alone then. */
  lemma OrderedRenewalRevivesNothing(s: Store, q: Renewal, job: string, now: Instant)
    requires RenewsFor(s, q, job) && AtMostOneLive(s, job, q.renewedAt) && AtMostOneLive(s, job, now)
    ensures !Revives(s, q, now)
  {
    var id := q.occurrenceId;
    assert Live(s.occurrences[id], q.renewedAt);
    hide RenewSpec, Live;
    if now <= q.renewedAt {
      LiveEarlier(s.occurrences[id], now, q.renewedAt);
    } else {
      forall other | other in s.occurrences && other != id && s.occurrences[other].jobName == job
        ensures !Live(s.occurrences[other], now)
      {
        LapsedStays(s.occurrences[other], q.renewedAt, now);
      }
    }
  }

  // In particular: while a job's policy is skip and each accepted renewal of the job is stamped not before the acquired
  // claims of the job that precede it, no two leases of the job are live at a time not before those claims. Nothing is
  // asked of other jobs, of refused requests, or of the order of the claims themselves.
  lemma {:induction false} OverlapExcluded(run: Run, k: nat, job: string, now: Instant)
    requires k <= |run.ops| && RenewalsInOrder(run, k, job) && AfterClaims(run, k, job, now)
    requires forall i | 0 <= i < k :: SkipsOverlap(StateAt(run, i), job)
    ensures AtMostOneLive(StateAt(run, k), job, now)
    decreases k
  {
    hide AtMostOneLive, Apply, Revives, RenewSpec;
    if k == 0 {
      EmptyHasNoneLive(job, now);
    } else {
      assert AfterClaims(run, k - 1, job, now) && RenewalsInOrder(run, k - 1, job);
      OverlapExcluded(run, k - 1, job, now);
      if RenewalFor(run, k - 1, job) {
        var renewal := run.ops[k - 1].renewal;
        OverlapExcluded(run, k - 1, job, renewal.renewedAt);
        OrderedRenewalRevivesNothing(StateAt(run, k - 1), renewal, job, now);
      }
      StepKeepsOneLive(run, k - 1, job, now);
    }
  }

  // ---- The order of renewals is needed ----

  /** A first registration, alone in an empty store. */
  lemma FirstRegistration(world: World, incoming: JobDefinition, normalized: JobDefinition, schedule: S.Schedule,
                          now: Instant, next: Instant)
    requires now != 0 && NormalizedDefinition(world, incoming, now) == Success((normalized, schedule))
    requires S.Next(world, schedule, now) == Success(next)
    ensures Apply(world, EMPTY, Reconcile([incoming], now)).0
            == Store(map[incoming.name := JobState(normalized, next, now, now)], map[])
  {
    hide NormalizedDefinition, S.Next;
    assert [incoming][..0] == [] && ReconcileAll(world, map[], [], now) == Success(map[]);
    assert ReconcileOne(world, map[], incoming, now) == Success(JobState(normalized, next, now, now));
    hide ReconcileOne;
  }

  /** A first claim of the occurrence at the cursor, with no live lease in the way. */
  lemma FirstClaim(world: World, s: Store, q: ClaimRequest)
    requires ValidateClaim(q).None? && q.jobName in s.jobs && q.occurrenceId !in s.occurrences
    requires s.jobs[q.jobName].nextRunAt == q.scheduledAt < q.nextRunAt
    requires NextRun(world, s.jobs[q.jobName].definition.schedule, q.scheduledAt) == Some(q.nextRunAt)
    requires !LiveOverlap(s.occurrences, q.jobName, None, q.claimedAt)
    ensures var (s', outcome) := Apply(world, s, Claim(q));
            && AcquiredBy(Claim(q), outcome, q.occurrenceId)
            && s'.occurrences == s.occurrences[q.occurrenceId := FirstClaimed(q)]
            && s'.jobs == s.jobs[q.jobName := s.jobs[q.jobName].(nextRunAt := q.nextRunAt, updatedAt := q.claimedAt)]
  {
    hide ValidateClaim, NextRun, LiveOverlap;
  }

  /** A job is registered, two of its occurrences are claimed one after the other, and the first lease is renewed late. */
  datatype Scenario = Scenario(world: World, job: JobDefinition, schedule: S.Schedule, start: Instant,
                               first: ClaimRequest, second: ClaimRequest, late: Renewal) {
    function Script(): Run {
      Run(world, [Reconcile([job], start), Claim(first), Claim(second), Renew(late)])
    }

    /** A claim of the occurrence at the job's cursor. */
    predicate Claimable(q: ClaimRequest) {
      && ValidateClaim(q).None? && q.jobName == job.name && q.scheduledAt < q.nextRunAt
      && NextRun(world, job.schedule, q.scheduledAt) == Some(q.nextRunAt)
    }

    predicate Registers() {
      && start != 0 && NormalizedDefinition(world, job, start) == Success((job, schedule))
      && S.Next(world, schedule, start) == Success(first.scheduledAt) && job.overlap == OverlapSkip
    }

    /** The first lease is over when the second begins, the renewal is stamped within it, and both last beyond. */
    predicate Interleaves() {
      && Claimable(first) && Claimable(second) && first.nextRunAt == second.scheduledAt
      && first.occurrenceId != second.occurrenceId && first.claimedAt <= second.claimedAt
      && !Live(FirstClaimed(first), second.claimedAt) && Live(FirstClaimed(second), second.claimedAt)
      && ValidRenewal(late) && late.occurrenceId == first.occurrenceId && late.leaseToken == first.leaseToken
      && Live(FirstClaimed(first), late.renewedAt) && DurablyAfter(late.leaseUntil, second.claimedAt)
    }

    lemma InterleavesWhen()
      requires Claimable(first) && Claimable(second) && first.nextRunAt == second.scheduledAt
      requires first.occurrenceId != second.occurrenceId && first.claimedAt <= second.claimedAt
      requires !Live(FirstClaimed(first), second.claimedAt) && Live(FirstClaimed(second), second.claimedAt)
      requires ValidRenewal(late) && late.occurrenceId == first.occurrenceId && late.leaseToken == first.leaseToken
      requires Live(FirstClaimed(first), late.renewedAt) && DurablyAfter(late.leaseUntil, second.claimedAt)
      ensures Interleaves()
    {
    }

    function Leases(): map<OccurrenceId, Record> {
      map[first.occurrenceId := FirstClaimed(first), second.occurrenceId := FirstClaimed(second)]
    }

    function Jobs(cursor: Instant, updatedAt: Instant): map<string, JobState> {
      map[job.name := JobState(job, cursor, start, updatedAt)]
    }

    function AfterStart(): Store {
      Store(Jobs(first.scheduledAt, start), map[])
    }

    function AfterFirst(): Store {
      Store(Jobs(first.nextRunAt, first.claimedAt), map[first.occurrenceId := FirstClaimed(first)])
    }

    function AfterSecond(): Store {
      Store(Jobs(second.nextRunAt, second.claimedAt), Leases())
    }

    lemma Starts()
      requires Registers()
      ensures Apply(world, EMPTY, Reconcile([job], start)).0 == AfterStart()
    {
      FirstRegistration(world, job, job, schedule, start, first.scheduledAt);
    }

    lemma FirstSucceeds()
      requires Interleaves()
      ensures Apply(world, AfterStart(), Claim(first)).0 == AfterFirst()
    {
      hide NextRun, ValidateClaim, Live, Apply;
      FirstClaim(world, AfterStart(), first);
    }

    lemma SecondSucceeds()
      requires Interleaves()
      ensures Apply(world, AfterFirst(), Claim(second)).0 == AfterSecond()
    {
      hide NextRun, ValidateClaim, Live, Apply;
      FirstClaim(world, AfterFirst(), second);
    }

    lemma ClaimsSucceed()
      requires Registers() && Interleaves()
      ensures var run := Script();
              && StateAt(run, 0) == EMPTY && StateAt(run, 1) == AfterStart()
              && StateAt(run, 2) == AfterFirst() && StateAt(run, 3) == AfterSecond()
    {
      Starts();
      FirstSucceeds();
      SecondSucceeds();
      var run := Script();
      hide Apply, AfterStart, AfterFirst, AfterSecond, Registers, Interleaves;
      assert StateAt(run, 0) == EMPTY;
      assert StateAt(run, 1) == Apply(world, EMPTY, Reconcile([job], start)).0;
      assert StateAt(run, 2) == Apply(world, AfterStart(), Claim(first)).0;
      assert StateAt(run, 3) == Apply(world, AfterFirst(), Claim(second)).0;
    }

    /** The renewal is accepted, brings the first lease back, and leaves two. */
    lemma RenewalRevives()
      requires Interleaves()
      ensures RenewsFor(AfterSecond(), late, job.name) && Revives(AfterSecond(), late, second.claimedAt)
      ensures AtMostOneLive(AfterSecond(), job.name, second.claimedAt)
      ensures !AtMostOneLive(RenewSpec(AfterSecond(), late).0, job.name, second.claimedAt)
    {
      hide NextRun, ValidateClaim, DurablyAfter, ValidRenewal;
      var s := AfterSecond();
      assert s.occurrences[first.occurrenceId] == FirstClaimed(first);
      assert s.occurrences[second.occurrenceId] == FirstClaimed(second);
      assert Owns(s, late.occurrenceId, late.leaseToken, late.renewedAt);
      hide Live;
      assert Revives(s, late, second.claimedAt);
      RenewalKeepsOneLiveExactly(s, late, job.name, second.claimedAt);
    }

    lemma ScriptIs()
      ensures |Script().ops| == 4 && Script().world == world
    {
    }

    lemma PolicyHolds()
      requires Registers()
      ensures SkipsOverlap(EMPTY, job.name) && SkipsOverlap(AfterStart(), job.name)
      ensures SkipsOverlap(AfterFirst(), job.name) && SkipsOverlap(AfterSecond(), job.name)
    {
      hide NormalizedDefinition, S.Next;
    }

    lemma ClaimsAreOver()
      requires first.claimedAt <= second.claimedAt
      ensures |Script().ops| == 4 && Script().ops[3] == Renew(late)
      ensures AfterClaims(Script(), 4, job.name, second.claimedAt)
    {
      hide AcquiresFor;
      var run := Script();
      assert run.ops == [Reconcile([job], start), Claim(first), Claim(second), Renew(late)];
      forall i | 0 <= i < 4 && AcquiresFor(run, i, job.name)
        ensures run.ops[i].Claim? && run.ops[i].claim.claimedAt <= second.claimedAt
      {
        AcquirerClaims(run, i, job.name);
      }
    }

    lemma Overlaps()
      requires Registers() && Interleaves()
      ensures forall i | 0 <= i < 4 :: SkipsOverlap(StateAt(Script(), i), job.name)
      ensures RenewalFor(Script(), 3, job.name) && Revives(StateAt(Script(), 3), late, second.claimedAt)
      ensures AfterClaims(Script(), 4, job.name, second.claimedAt)
      ensures !AtMostOneLive(StateAt(Script(), 4), job.name, second.claimedAt)
    {
      assert first.claimedAt <= second.claimedAt;
      hide *;
      ClaimsSucceed();
      PolicyHolds();
      ClaimsAreOver();
      RenewalRevives();
      var run := Script();
      RenewalForWhen(run, 3, late, job.name);
      RenewalStep(run, 3, job.name);
      forall i | 0 <= i < 4
        ensures SkipsOverlap(StateAt(run, i), job.name)
      {
        assert i in {0, 1, 2, 3};
      }
    }
  }

  lemma RenewalForWhen(run: Run, i: nat, q: Renewal, job: string)
    requires i < |run.ops| && run.ops[i] == Renew(q) && RenewsFor(StateAt(run, i), q, job)
    ensures RenewalFor(run, i, job)
  {
  }

  lemma AcquirerClaims(run: Run, i: nat, job: string)
    requires i < |run.ops| && AcquiresFor(run, i, job)
    ensures run.ops[i].Claim?
  {
  }

  const HOUR := 3_600_000_000_000
  const MILLISECOND := 1_000_000

  function Hour(n: nat): Instant {
    n * HOUR
  }

  /** The hourly schedule anchored at hour 1. */
  function HourlySchedule(): S.Schedule {
    S.Schedule(S.EveryRule(3_600_000_000_000), Some("UTC"), 3_600_000_000_000, true)
  }

  function HourlyDefinition(world: World): S.ScheduleDefinition
    requires S.Valid(world, HourlySchedule())
  {
    S.Definition(world, HourlySchedule()).value
  }

  lemma HourlyIsValid(world: World)
    ensures S.Valid(world, HourlySchedule())
    ensures S.ScheduleFromDefinition(world, HourlyDefinition(world)) == Success(HourlySchedule())
  {
    S.DefinitionRoundTrip(world, HourlySchedule());
    hide S.ScheduleFromDefinition, S.Definition;
  }

  lemma HourlyParts()
    ensures S.AnchorOf(HourlySchedule()) == HOUR && HourlySchedule().rule.interval as int == HOUR
    ensures HourlySchedule().rule.kind == S.Every
  {
  }

  lemma HourlyNext(world: World, n: nat)
    requires 1 <= n <= 3
    ensures S.Next(world, HourlySchedule(), Hour(n)) == Success(Hour(n + 1))
  {
    var m := n - 1;
    assert Hour(n) == HOUR + m * HOUR && Hour(n + 1) == HOUR + (m + 1) * HOUR;
    hide *;
    HourlyIsValid(world);
    HourlyParts();
    S.NextTick(world, HourlySchedule(), HOUR, HOUR, m);
  }

  lemma HourlyNextRun(world: World, n: nat)
    requires 1 <= n <= 3
    ensures S.Valid(world, HourlySchedule()) && NextRun(world, HourlyDefinition(world), Hour(n)) == Some(Hour(n + 1))
  {
    HourlyIsValid(world);
    HourlyNext(world, n);
    hide S.ScheduleFromDefinition, S.Next, S.Valid, S.Validate, S.Definition, Hour;
  }

  /** An hourly job in UTC whose policy is skip, registered with its anchor. */
  function Job(world: World): JobDefinition
    requires S.Valid(world, HourlySchedule())
  {
    JobDefinition("job", HourlyDefinition(world), CatchUpAll, OverlapSkip)
  }

  lemma HourlyDefinitionHasAnchor(world: World)
    requires S.Valid(world, HourlySchedule())
    ensures S.Definition(world, HourlySchedule()) == Success(HourlyDefinition(world)) && HourlyDefinition(world).hasAnchor
  {
    hide S.Validate;
  }

  lemma JobNormalizes(world: World)
    ensures S.Valid(world, HourlySchedule())
    ensures NormalizedDefinition(world, Job(world), Hour(1)) == Success((Job(world), HourlySchedule()))
  {
    HourlyIsValid(world);
    HourlyDefinitionHasAnchor(world);
    assert ValidJobName("job");
    hide HourlySchedule, HourlyDefinition, S.ScheduleFromDefinition, S.Valid, S.Validate, S.Definition, S.Anchored, ValidJobName;
  }

  /** The claim of the occurrence at hour n, made on time under a lease of one minute. */
  function HourlyClaim(n: nat, token: string): ClaimRequest {
    ClaimRequest(OccurrenceOf("job", Hour(n)), "job", Hour(n), Hour(n + 1), "owner", token, Hour(n), Hour(n) + MINUTE)
  }

  lemma HourlyClaimIsValid(n: nat, token: string)
    requires 1 <= n <= 3 && token in {"first", "second"}
    ensures ValidateClaim(HourlyClaim(n, token)).None?
  {
    assert DurablyAfter(Hour(n) + MINUTE, Hour(n)) by { assert Hour(n) % MICROSECOND == 0; }
    hide DurablyAfter;
  }

  /** A renewal of the lease of hour 2, stamped a millisecond into it, until hour 4. */
  function LateRenewal(): Renewal {
    Renewal(OccurrenceOf("job", Hour(2)), "first", Hour(2) + MILLISECOND, Hour(4))
  }

  lemma LateTimesInOrder()
    ensures HourlyClaim(2, "first").leaseUntil / 1000 < Hour(3) / 1000 < HourlyClaim(3, "second").leaseUntil / 1000
    ensures LateRenewal().renewedAt / 1000 < HourlyClaim(2, "first").leaseUntil / 1000
    ensures Hour(3) / 1000 < LateRenewal().leaseUntil / 1000 && LateRenewal().renewedAt < Hour(3)
  {
  }

  /** The leases of the run: the first is over at hour 3, when the second begins, and live again once renewed. */
  lemma LateLeases()
    ensures !Live(FirstClaimed(HourlyClaim(2, "first")), Hour(3)) && Live(FirstClaimed(HourlyClaim(3, "second")), Hour(3))
    ensures Live(FirstClaimed(HourlyClaim(2, "first")), LateRenewal().renewedAt)
    ensures DurablyAfter(LateRenewal().leaseUntil, Hour(3)) && ValidRenewal(LateRenewal())
  {
    LateTimesInOrder();
    DurablyAfterExactly(HourlyClaim(2, "first").leaseUntil, Hour(3));
    DurablyAfterExactly(HourlyClaim(3, "second").leaseUntil, Hour(3));
    DurablyAfterExactly(HourlyClaim(2, "first").leaseUntil, LateRenewal().renewedAt);
    DurablyAfterExactly(LateRenewal().leaseUntil, Hour(3));
    DurablyAfterExactly(LateRenewal().leaseUntil, LateRenewal().renewedAt);
    assert LateRenewal().renewedAt != 0 && LateRenewal().leaseUntil != 0;
    hide DurablyAfter, Hour;
  }

  function LateScenario(world: World): Scenario
    requires S.Valid(world, HourlySchedule())
  {
    Scenario(world, Job(world), HourlySchedule(), Hour(1), HourlyClaim(2, "first"), HourlyClaim(3, "second"), LateRenewal())
  }

  lemma LateScenarioRegisters(world: World)
    ensures S.Valid(world, HourlySchedule()) && LateScenario(world).Registers()
  {
    JobNormalizes(world);
    HourlyNext(world, 1);
    assert Hour(1) != 0;
    hide Hour, HourlySchedule, S.Valid, NormalizedDefinition, S.Next, HourlyDefinition;
  }

  lemma HourlyClaimable(world: World, n: nat, token: string)
    requires 2 <= n <= 3 && token in {"first", "second"}
    ensures S.Valid(world, HourlySchedule()) && LateScenario(world).Claimable(HourlyClaim(n, token))
  {
    HourlyNextRun(world, n);
    HourlyClaimIsValid(n, token);
    assert Hour(n) < Hour(n + 1);
    hide Hour, HourlySchedule, S.Valid, NextRun, ValidateClaim, HourlyDefinition;
  }

  lemma LateParts(world: World)
    requires S.Valid(world, HourlySchedule())
    ensures var scenario := LateScenario(world);
            && scenario.first == HourlyClaim(2, "first") && scenario.second == HourlyClaim(3, "second")
            && scenario.late == LateRenewal() && scenario.job.name == "job" && scenario.world == world
  {
    hide HourlySchedule, S.Valid, S.Validate, Hour, HourlyClaim, LateRenewal, HourlyDefinition;
  }

  lemma LateScenarioInterleaves(world: World)
    ensures S.Valid(world, HourlySchedule()) && LateScenario(world).Interleaves()
  {
    hide *;
    HourlyClaimable(world, 2, "first");
    HourlyClaimable(world, 3, "second");
    LateLeases();
    LateTimes();
    LateParts(world);
    LateScenario(world).InterleavesWhen();
  }

  lemma LateTimes()
    ensures var first, second, late := HourlyClaim(2, "first"), HourlyClaim(3, "second"), LateRenewal();
            && first.nextRunAt == second.scheduledAt && first.claimedAt <= second.claimedAt == Hour(3)
            && first.occurrenceId != second.occurrenceId
            && late.occurrenceId == first.occurrenceId && late.leaseToken == first.leaseToken
  {
    assert Hour(2) < Hour(3);
    hide Hour;
  }

  // Without that order the policy fails: from the empty store, a job is registered at hour 1 and claimed at hours 2 and
  // 3 under leases of one minute; a renewal of the first lease, stamped a millisecond into it but arriving last, is
  // accepted, and two leases of a job whose policy is skip are live together.
  lemma LateRenewalOverlaps(world: World) returns (run: Run, now: Instant)
    ensures |run.ops| == 4 && run.world == world
    ensures forall i | 0 <= i < 4 :: SkipsOverlap(StateAt(run, i), "job")
    ensures RenewalFor(run, 3, "job") && AfterClaims(run, 4, "job", now)
    ensures !AtMostOneLive(StateAt(run, 4), "job", now)
  {
    hide *;
    LateScenarioRegisters(world);
    LateScenarioInterleaves(world);
    LateParts(world);
    var scenario := LateScenario(world);
    scenario.Overlaps();
    run, now := scenario.Script(), scenario.second.claimedAt;
    scenario.ScriptIs();
  }
}
