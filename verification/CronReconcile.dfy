/** Reconciling a service's jobs with the stored ones (pkg/cron/store.go). */
module CronReconcile {
  import opened Wrappers
  import opened GoIntegers
  import opened CronTime
  import opened CronStore
  import S = CronSchedule

  // A job's name is a lower-case letter and up to 127 lower-case letters, digits, dots, underscores, slashes and hyphens.
  lemma JobNamesExactly(name: string)
    ensures ValidJobName(name) <==>
            && 1 <= |name| <= 128 && 'a' <= name[0] <= 'z'
            && forall c | c in name[1..] :: 'a' <= c <= 'z' || '0' <= c <= '9' || c in "._/-"
  {
    if 1 <= |name| <= 128 {
      assert forall i | 1 <= i < |name| :: name[i] == name[1..][i - 1] && name[i] in name[1..];
    }
  }

  /** The stored interval schedule has an anchor that the incoming one can take over. */
  predicate TakesAnchor(incoming: S.ScheduleDefinition, stored: S.ScheduleDefinition) {
    && incoming.kind == stored.kind == S.KindEvery && !incoming.hasAnchor && stored.hasAnchor
    && incoming.interval == stored.interval && incoming.timezone == stored.timezone && incoming.canonical == stored.canonical
  }

  /** The schedule that a job goes by: an interval without an anchor gets the stored one, or the present time. */
  function Effective(incoming: S.ScheduleDefinition, rebuilt: S.Schedule, stored: Option<S.ScheduleDefinition>, now: Instant)
    : S.Schedule
  {
    if incoming.kind != S.KindEvery || incoming.hasAnchor then rebuilt
    else
      var anchor := if stored.Some? && TakesAnchor(incoming, stored.value) then stored.value.anchor else now;
      rebuilt.(anchor := anchor - anchor % 1000, hasAnchor := true)
  }

  /** What reconciling makes of one job. */
  predicate Reconciled(world: World, jobs: map<string, JobState>, incoming: JobDefinition, now: Instant, state: JobState) {
    var known := incoming.name in jobs;
    var rebuilt := S.ScheduleFromDefinition(world, incoming.schedule);
    && ValidJobName(incoming.name) && rebuilt.Success?
    && state.definition.name == incoming.name
    && state.definition.catchUp == incoming.catchUp && state.definition.overlap == incoming.overlap
    && incoming.catchUp in {CatchUpNone, CatchUpLatest, CatchUpAll} && incoming.overlap in {OverlapSkip, OverlapAllow}
    && (var schedule := Effective(incoming.schedule, rebuilt.value,
                                  if known then Some(jobs[incoming.name].definition.schedule) else None, now);
        && S.Definition(world, schedule) == Success(state.definition.schedule)
        && state.createdAt == (if known then jobs[incoming.name].createdAt else now)
        && state.updatedAt == (if known && state.definition == jobs[incoming.name].definition
                               then jobs[incoming.name].updatedAt else now)
        && if known && state.definition.schedule == jobs[incoming.name].definition.schedule && jobs[incoming.name].nextRunAt != 0
           then state.nextRunAt == jobs[incoming.name].nextRunAt
           else S.Next(world, schedule, now) == Success(state.nextRunAt))
  }

  /** Taking over an anchor and then rebuilding is rebuilding and then anchoring. */
  lemma RebuiltWithAnchor(world: World, d: S.ScheduleDefinition, anchor: Instant)
    requires d.kind == S.KindEvery && !d.hasAnchor
    ensures var anchored := S.ScheduleFromDefinition(world, d.(anchor := anchor, hasAnchor := true));
            var rebuilt := S.ScheduleFromDefinition(world, d);
            && (anchored.Success? <==> rebuilt.Success? && S.Definition(world, S.Anchored(rebuilt.value, anchor)).Success?)
            && (anchored.Success? ==> anchored.value == S.Anchored(rebuilt.value, anchor))
  {
    hide S.Portable, S.GoodInterval;
  }

  lemma OneReconciled(world: World, jobs: map<string, JobState>, incoming: JobDefinition, now: Instant)
    requires ReconcileOne(world, jobs, incoming, now).Success?
    ensures Reconciled(world, jobs, incoming, now, ReconcileOne(world, jobs, incoming, now).value)
  {
    if incoming.name in jobs && TakesAnchor(incoming.schedule, jobs[incoming.name].definition.schedule) {
      RebuiltWithAnchor(world, incoming.schedule, jobs[incoming.name].definition.schedule.anchor);
    }
    hide S.ScheduleFromDefinition, S.Definition, S.Next, ValidJobName;
  }

  lemma ReconciledIsOne(world: World, jobs: map<string, JobState>, incoming: JobDefinition, now: Instant, state: JobState)
    requires Reconciled(world, jobs, incoming, now, state)
    ensures ReconcileOne(world, jobs, incoming, now).Success?
  {
    if incoming.name in jobs && TakesAnchor(incoming.schedule, jobs[incoming.name].definition.schedule) {
      RebuiltWithAnchor(world, incoming.schedule, jobs[incoming.name].definition.schedule.anchor);
    }
    hide S.ScheduleFromDefinition, S.Definition, S.Next, ValidJobName;
  }

  function Names(definitions: seq<JobDefinition>): set<string> {
    set definition | definition in definitions :: definition.name
  }

  lemma NamesExtend(definitions: seq<JobDefinition>)
    requires definitions != []
    ensures Names(definitions) == Names(definitions[..|definitions| - 1]) + {definitions[|definitions| - 1].name}
  {
    assert definitions == definitions[..|definitions| - 1] + [definitions[|definitions| - 1]];
  }

  predicate DistinctNames(definitions: seq<JobDefinition>) {
    forall i, j | 0 <= i < j < |definitions| :: definitions[i].name != definitions[j].name
  }

  lemma {:induction false} AllReconciled(world: World, jobs: map<string, JobState>, definitions: seq<JobDefinition>, now: Instant)
    requires ReconcileAll(world, jobs, definitions, now).Success?
    ensures var active := ReconcileAll(world, jobs, definitions, now).value;
            && active.Keys == Names(definitions) && DistinctNames(definitions)
            && forall d | d in definitions :: Reconciled(world, jobs, d, now, active[d.name])
  {
    if definitions != [] {
      var last, earlier := definitions[|definitions| - 1], definitions[..|definitions| - 1];
      hide *;
      LastReconciled(world, jobs, definitions, now);
      AllReconciled(world, jobs, earlier, now);
      OneReconciled(world, jobs, last, now);
      NamesExtend(definitions);
      DistinctExtends(definitions);
      forall d | d in definitions
        ensures Reconciled(world, jobs, d, now, ReconcileAll(world, jobs, definitions, now).value[d.name])
      {
        MemberName(definitions, d);
      }
    } else {
      assert Names([]) == {};
    }
  }

  lemma DistinctExtends(definitions: seq<JobDefinition>)
    requires definitions != [] && DistinctNames(definitions[..|definitions| - 1])
    requires definitions[|definitions| - 1].name !in Names(definitions[..|definitions| - 1])
    ensures DistinctNames(definitions)
  {
    var earlier := definitions[..|definitions| - 1];
    assert forall i | 0 <= i < |earlier| :: earlier[i] == definitions[i] && earlier[i] in earlier;
  }

  lemma MemberName(definitions: seq<JobDefinition>, d: JobDefinition)
    requires d in definitions
    ensures d == definitions[|definitions| - 1]
            || (d in definitions[..|definitions| - 1] && d.name in Names(definitions[..|definitions| - 1]))
  {
    assert definitions == definitions[..|definitions| - 1] + [definitions[|definitions| - 1]];
  }

  lemma LastReconciled(world: World, jobs: map<string, JobState>, definitions: seq<JobDefinition>, now: Instant)
    requires definitions != [] && ReconcileAll(world, jobs, definitions, now).Success?
    ensures var before := ReconcileAll(world, jobs, definitions[..|definitions| - 1], now);
            var last := definitions[|definitions| - 1];
            && before.Success? && last.name !in before.value && ReconcileOne(world, jobs, last, now).Success?
            && ReconcileAll(world, jobs, definitions, now).value
               == before.value[last.name := ReconcileOne(world, jobs, last, now).value]
  {
    hide ReconcileOne;
  }

  lemma {:induction false} AllSucceed(world: World, jobs: map<string, JobState>, definitions: seq<JobDefinition>, now: Instant)
    requires DistinctNames(definitions) && forall d | d in definitions :: ReconcileOne(world, jobs, d, now).Success?
    ensures ReconcileAll(world, jobs, definitions, now).Success?
    ensures ReconcileAll(world, jobs, definitions, now).value.Keys == Names(definitions)
  {
    hide ReconcileOne;
    if definitions != [] {
      var n := |definitions| - 1;
      assert definitions == definitions[..n] + [definitions[n]];
      AllSucceed(world, jobs, definitions[..n], now);
      NamesExtend(definitions);
    } else {
      assert Names([]) == {};
    }
  }

  ghost predicate Reconcilable(world: World, jobs: map<string, JobState>, incoming: JobDefinition, now: Instant) {
    exists state :: Reconciled(world, jobs, incoming, now, state)
  }

  // A reconciliation succeeds exactly when the names are distinct and every job can be reconciled with its stored state;
  // it then leaves exactly those jobs and keeps every occurrence. One that fails changes nothing.
  lemma ReconcileExactly(world: World, s: Store, definitions: seq<JobDefinition>, now: Instant)
    ensures var (t, error) := ReconcileSpec(world, s, definitions, now);
            && (error.None? <==> now != 0 && DistinctNames(definitions)
                                 && forall d | d in definitions :: Reconcilable(world, s.jobs, d, now))
            && (error.Some? ==> t == s)
            && (error.None? ==> t.occurrences == s.occurrences && t.jobs.Keys == Names(definitions)
                                && forall d | d in definitions :: Reconciled(world, s.jobs, d, now, t.jobs[d.name]))
  {
    hide ReconcileAll, ReconcileOne, Reconciled, DistinctNames;
    if ReconcileAll(world, s.jobs, definitions, now).Success? {
      AllReconciled(world, s.jobs, definitions, now);
      var active := ReconcileAll(world, s.jobs, definitions, now).value;
      forall d | d in definitions
        ensures Reconcilable(world, s.jobs, d, now)
      {
        assert Reconciled(world, s.jobs, d, now, active[d.name]);
      }
    } else if DistinctNames(definitions) && forall d | d in definitions :: Reconcilable(world, s.jobs, d, now) {
      forall d | d in definitions
        ensures ReconcileOne(world, s.jobs, d, now).Success?
      {
        var state :| Reconciled(world, s.jobs, d, now, state);
        ReconciledIsOne(world, s.jobs, d, now, state);
      }
      AllSucceed(world, s.jobs, definitions, now);
    }
  }

  /** A definition as a service projects it from one of its schedules. */
  predicate Projected(world: World, d: S.ScheduleDefinition) {
    var rebuilt := S.ScheduleFromDefinition(world, d);
    rebuilt.Success? && S.Definition(world, rebuilt.value) == Success(d)
  }

  lemma AnchoredStays(world: World, d: S.ScheduleDefinition, anchor: Instant)
    requires d.kind == S.KindEvery && !d.hasAnchor && Projected(world, d)
    requires S.Definition(world, S.Anchored(S.ScheduleFromDefinition(world, d).value, anchor)).Success?
    ensures var e := S.Definition(world, S.Anchored(S.ScheduleFromDefinition(world, d).value, anchor)).value;
            && TakesAnchor(d, e)
            && S.ScheduleFromDefinition(world, d.(anchor := e.anchor, hasAnchor := true))
               == Success(S.Anchored(S.ScheduleFromDefinition(world, d).value, anchor))
            && S.Definition(world, S.ScheduleFromDefinition(world, d.(anchor := e.anchor, hasAnchor := true)).value) == Success(e)
  {
    hide S.Portable, S.GoodInterval;
  }

  lemma OneIsStable(world: World, jobs: map<string, JobState>, later: map<string, JobState>, d: JobDefinition,
                    now: Instant, after: Instant)
    requires Projected(world, d.schedule) && d.name in later && later[d.name].nextRunAt != 0
    requires Reconciled(world, jobs, d, now, later[d.name])
    ensures ReconcileOne(world, later, d, after) == Success(later[d.name])
  {
    var state := later[d.name];
    var rebuilt := S.ScheduleFromDefinition(world, d.schedule).value;
    if d.schedule.kind == S.KindEvery && !d.schedule.hasAnchor {
      var stored := if d.name in jobs then Some(jobs[d.name].definition.schedule) else None;
      var anchor := if stored.Some? && TakesAnchor(d.schedule, stored.value) then stored.value.anchor else now;
      assert Effective(d.schedule, rebuilt, stored, now) == S.Anchored(rebuilt, anchor);
      AnchoredStays(world, d.schedule, anchor);
      hide S.ScheduleFromDefinition, S.Definition, S.Next, ValidJobName;
      assert PreserveIntervalAnchor(d, state.definition)
          == d.(schedule := d.schedule.(anchor := state.definition.schedule.anchor, hasAnchor := true));
      assert NormalizedDefinition(world, PreserveIntervalAnchor(d, state.definition), after).Success?;
    } else {
      hide S.ScheduleFromDefinition, S.Definition, S.Next, ValidJobName;
      assert PreserveIntervalAnchor(d, state.definition) == d;
      assert state.definition.schedule == d.schedule;
    }
  }

  lemma {:induction false} AllAreStable(world: World, jobs: map<string, JobState>, later: map<string, JobState>,
                                        definitions: seq<JobDefinition>, now: Instant, after: Instant)
    requires DistinctNames(definitions)
    requires forall d | d in definitions ::
               && Projected(world, d.schedule) && d.name in later && later[d.name].nextRunAt != 0
               && Reconciled(world, jobs, d, now, later[d.name])
    ensures ReconcileAll(world, later, definitions, after).Success?
    ensures var active := ReconcileAll(world, later, definitions, after).value;
            active.Keys == Names(definitions) && forall name | name in active :: name in later && active[name] == later[name]
  {
    hide ReconcileOne, Reconciled, Projected;
    if definitions != [] {
      var n := |definitions| - 1;
      assert definitions == definitions[..n] + [definitions[n]];
      AllAreStable(world, jobs, later, definitions[..n], now, after);
      OneIsStable(world, jobs, later, definitions[n], now, after);
      NamesExtend(definitions);
    }
  }

  // Restarting a service reconciles its jobs again, and that changes nothing: neither a cursor, nor the anchor that an
  // interval without one was given, nor a time of update.
  lemma ReconcileIsIdempotent(world: World, s: Store, definitions: seq<JobDefinition>, now: Instant, after: Instant)
    requires after != 0 && ReconcileSpec(world, s, definitions, now).1.None?
    requires forall d | d in definitions :: Projected(world, d.schedule)
    requires var t := ReconcileSpec(world, s, definitions, now).0; forall name | name in t.jobs :: t.jobs[name].nextRunAt != 0
    ensures var t := ReconcileSpec(world, s, definitions, now).0; ReconcileSpec(world, t, definitions, after) == (t, None)
  {
    ReconcileExactly(world, s, definitions, now);
    var t := ReconcileSpec(world, s, definitions, now).0;
    hide ReconcileAll, Reconciled, Projected;
    AllAreStable(world, s.jobs, t.jobs, definitions, now, after);
    assert ReconcileAll(world, t.jobs, definitions, after).value == t.jobs;
  }
}
