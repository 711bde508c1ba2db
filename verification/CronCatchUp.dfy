/** collectDue and occurrenceRunIndex: which missed occurrences a cycle runs or skips (pkg/cron/service.go). */
module CronCatchUp {
  import opened Wrappers
  import opened CronTime
  import opened CronStore
  import S = CronSchedule

  datatype Due = Due(scheduledAt: Instant, nextRunAt: Instant)

  datatype Decision = Run(due: Due) | Skip(due: Due, reason: string)

  /** The due occurrences from `next` on, at most `limit` of them, and whether more remain. */
  function Collect(world: World, schedule: S.Schedule, next: Instant, now: Instant, limit: nat)
    : Result<(seq<Due>, bool), S.ScheduleError>
    decreases limit
  {
    if next > now then Success(([], false))
    else if limit == 0 then Success(([], true))
    else
      var following :- S.Next(world, schedule, next);
      var (rest, more) :- Collect(world, schedule, following, now, limit - 1);
      Success(([Due(next, following)] + rest, more))
  }

  /** How many of the collected occurrences are skipped before the first that runs. */
  function RunIndex(policy: CatchUpPolicy, count: nat, startup: bool, more: bool): (r: nat)
    ensures r <= count
  {
    if count == 0 || policy == CatchUpAll then 0
    else if startup && policy == CatchUpNone then count
    else if more then count
    else count - 1
  }

  /** What the cycle does with the due occurrence at `index`. */
  function DecideOne(policy: CatchUpPolicy, due: Due, index: nat, count: nat, startup: bool, more: bool): Decision {
    if index < RunIndex(policy, count, startup, more)
    then Skip(due, if startup && policy == CatchUpNone then "catch_up_disabled" else "superseded")
    else Run(due)
  }

  function Decide(policy: CatchUpPolicy, due: seq<Due>, startup: bool, more: bool): (ds: seq<Decision>)
    ensures |ds| == |due|
    ensures forall i | 0 <= i < |due| :: ds[i] == DecideOne(policy, due[i], i, |due|, startup, more)
  {
    seq(|due|, i requires 0 <= i < |due| => DecideOne(policy, due[i], i, |due|, startup, more))
  }

  method CollectDue(world: World, schedule: S.Schedule, start: Instant, now: Instant, limit: nat)
    returns (r: Result<(seq<Due>, bool), S.ScheduleError>)
    ensures r == Collect(world, schedule, start, now, limit)
  {
    hide S.Next;
    var occurrences: seq<Due> := [];
    var next := start;
    PrefixedByNothing(Collect(world, schedule, start, now, limit));
    while next <= now
      invariant |occurrences| <= limit
      invariant Collect(world, schedule, start, now, limit)
             == Prefixed(occurrences, Collect(world, schedule, next, now, limit - |occurrences|))
      decreases limit - |occurrences|
    {
      if |occurrences| == limit {
        assert occurrences + [] == occurrences;
        return Success((occurrences, true));
      }
      var following := S.Next(world, schedule, next);
      if following.Failure? {
        return Failure(following.error);
      }
      PrefixedTwice(occurrences, Due(next, following.value),
                    Collect(world, schedule, following.value, now, limit - |occurrences| - 1));
      occurrences := occurrences + [Due(next, following.value)];
      next := following.value;
    }
    assert occurrences + [] == occurrences;
    return Success((occurrences, false));
  }

  function Prefixed(earlier: seq<Due>, r: Result<(seq<Due>, bool), S.ScheduleError>)
    : Result<(seq<Due>, bool), S.ScheduleError>
  {
    match r
    case Failure(error) => Failure(error)
    case Success((later, more)) => Success((earlier + later, more))
  }

  lemma PrefixedByNothing(r: Result<(seq<Due>, bool), S.ScheduleError>)
    ensures Prefixed([], r) == r
  {
    if r.Success? {
      assert [] + r.value.0 == r.value.0;
    }
  }

  lemma PrefixedTwice(earlier: seq<Due>, due: Due, r: Result<(seq<Due>, bool), S.ScheduleError>)
    ensures Prefixed(earlier, Prefixed([due], r)) == Prefixed(earlier + [due], r)
  {
    if r.Success? {
      assert earlier + ([due] + r.value.0) == (earlier + [due]) + r.value.0;
    }
  }

  // ---- Batches refine the unbounded pass ----

  /** With no limit in the way, the pass from `next` collects exactly `due`. */
  predicate Unbounded(world: World, schedule: S.Schedule, next: Instant, now: Instant, due: seq<Due>) {
    Collect(world, schedule, next, now, |due|) == Success((due, false))
  }

  // A limited pass is a prefix of the unbounded one, says whether it is proper, and leaves the rest due.
  lemma {:induction false} LimitedPassIsPrefix(world: World, schedule: S.Schedule, next: Instant, now: Instant,
                                               due: seq<Due>, limit: nat)
    requires Unbounded(world, schedule, next, now, due)
    ensures limit >= |due| ==> Collect(world, schedule, next, now, limit) == Success((due, false))
    ensures limit < |due| ==>
              && Collect(world, schedule, next, now, limit) == Success((due[..limit], true))
              && Unbounded(world, schedule, due[limit].scheduledAt, now, due[limit..])
              && (limit > 0 ==> due[limit].scheduledAt == due[limit - 1].nextRunAt)
    decreases |due|
  {
    hide S.Next;
    if due != [] {
      assert due[0].scheduledAt == next;
      var following := due[0].nextRunAt;
      assert due == [due[0]] + due[1..];
      assert Unbounded(world, schedule, following, now, due[1..]);
      if limit > 0 {
        LimitedPassIsPrefix(world, schedule, following, now, due[1..], limit - 1);
        if limit < |due| {
          assert due[1..][limit - 1..] == due[limit..];
          assert due[..limit] == [due[0]] + due[1..][..limit - 1];
          if limit == 1 {
            assert due[1].scheduledAt == following;
          }
        }
      } else {
        assert due[0..] == due;
      }
    }
  }

  /** Everything the repeated cycles decide for a fixed `now`; `startup` is cleared by the cycle with no more due. */
  function Cycles(world: World, schedule: S.Schedule, policy: CatchUpPolicy, next: Instant, startup: bool,
                  now: Instant, limit: nat, ghost due: seq<Due>): seq<Decision>
    requires limit >= 1 && Unbounded(world, schedule, next, now, due)
    decreases |due|
  {
    LimitedPassIsPrefix(world, schedule, next, now, due, limit);
    var (collected, more) := Collect(world, schedule, next, now, limit).value;
    var decided := Decide(policy, collected, startup, more);
    if !more then decided
    else decided + Cycles(world, schedule, policy, collected[|collected| - 1].nextRunAt, startup, now, limit, due[limit..])
  }

  lemma DecisionsSplit(policy: CatchUpPolicy, due: seq<Due>, startup: bool, limit: nat)
    requires 1 <= limit < |due|
    ensures Decide(policy, due[..limit], startup, true) + Decide(policy, due[limit..], startup, false)
         == Decide(policy, due, startup, false)
  {
    var whole := Decide(policy, due, startup, false);
    var first, rest := Decide(policy, due[..limit], startup, true), Decide(policy, due[limit..], startup, false);
    forall i | 0 <= i < |due|
      ensures (first + rest)[i] == whole[i]
    {
      if i < limit {
        assert first[i] == DecideOne(policy, due[i], i, limit, startup, true);
      } else {
        assert rest[i - limit] == DecideOne(policy, due[i], i - limit, |due| - limit, startup, false);
      }
    }
  }

  // For every policy, limit and startup flag, the batches decide exactly what one unlimited pass would.
  lemma {:induction false} BatchesRefineUnboundedPass(world: World, schedule: S.Schedule, policy: CatchUpPolicy,
                                                      next: Instant, startup: bool, now: Instant, limit: nat, due: seq<Due>)
    requires limit >= 1 && Unbounded(world, schedule, next, now, due)
    ensures Cycles(world, schedule, policy, next, startup, now, limit, due) == Decide(policy, due, startup, false)
    decreases |due|
  {
    hide S.Next, Collect, Decide;
    LimitedPassIsPrefix(world, schedule, next, now, due, limit);
    if limit < |due| {
      var rest := due[limit..];
      BatchesRefineUnboundedPass(world, schedule, policy, due[limit - 1].nextRunAt, startup, now, limit, rest);
      DecisionsSplit(policy, due, startup, limit);
    }
  }

  // ---- What is decided ----

  /** Under all every occurrence runs; a startup under none runs nothing; otherwise only the last runs, once it is known. */
  predicate DecidedBy(policy: CatchUpPolicy, due: seq<Due>, startup: bool, more: bool, decided: seq<Decision>) {
    && |decided| == |due|
    && forall i | 0 <= i < |due| ::
         decided[i] == if policy == CatchUpAll then Run(due[i])
                       else if policy == CatchUpNone && startup then Skip(due[i], "catch_up_disabled")
                       else if i == |due| - 1 && !more then Run(due[i])
                       else Skip(due[i], "superseded")
  }

  lemma DecidesExactly(policy: CatchUpPolicy, due: seq<Due>, startup: bool, more: bool)
    ensures DecidedBy(policy, due, startup, more, Decide(policy, due, startup, more))
  {
  }

  // For every limit, the cycles of a catch-up run every due occurrence under all, none at a startup under none, and
  // otherwise exactly the last one, with every earlier one skipped as superseded.
  lemma CyclesDecideExactly(world: World, schedule: S.Schedule, policy: CatchUpPolicy, next: Instant, startup: bool,
                            now: Instant, limit: nat, due: seq<Due>)
    requires limit >= 1 && Unbounded(world, schedule, next, now, due)
    ensures DecidedBy(policy, due, startup, false, Cycles(world, schedule, policy, next, startup, now, limit, due))
  {
    BatchesRefineUnboundedPass(world, schedule, policy, next, startup, now, limit, due);
    DecidesExactly(policy, due, startup, false);
  }

  lemma UnboundedUnfolds(world: World, schedule: S.Schedule, next: Instant, now: Instant, due: seq<Due>)
    requires due != []
    ensures Unbounded(world, schedule, next, now, due) <==>
            && due[0].scheduledAt == next <= now && S.Next(world, schedule, next) == Success(due[0].nextRunAt)
            && Unbounded(world, schedule, due[0].nextRunAt, now, due[1..])
  {
    hide S.Next;
    assert due == [due[0]] + due[1..];
    if S.Next(world, schedule, next).Success? {
      var rest := Collect(world, schedule, S.Next(world, schedule, next).value, now, |due| - 1);
      if rest.Success? {
        var first := Due(next, S.Next(world, schedule, next).value);
        assert ([first] + rest.value.0)[0] == first && ([first] + rest.value.0)[1..] == rest.value.0;
      }
    }
  }

  predicate FollowsAt(world: World, schedule: S.Schedule, next: Instant, now: Instant, due: seq<Due>, i: nat)
    requires i < |due|
  {
    && due[i].scheduledAt == (if i == 0 then next else due[i - 1].nextRunAt) && due[i].scheduledAt <= now
    && S.Next(world, schedule, due[i].scheduledAt) == Success(due[i].nextRunAt)
  }

  /** The occurrences follow Next from `next` on, and all of them are due. */
  predicate FollowsNext(world: World, schedule: S.Schedule, next: Instant, now: Instant, due: seq<Due>) {
    forall i | 0 <= i < |due| :: FollowsAt(world, schedule, next, now, due, i)
  }

  lemma FollowsUnfolds(world: World, schedule: S.Schedule, next: Instant, now: Instant, due: seq<Due>)
    requires due != []
    ensures FollowsNext(world, schedule, next, now, due) <==>
            && due[0].scheduledAt == next <= now && S.Next(world, schedule, next) == Success(due[0].nextRunAt)
            && FollowsNext(world, schedule, due[0].nextRunAt, now, due[1..])
  {
    hide S.Next;
    var rest := due[1..];
    forall i | 0 <= i < |rest|
      ensures FollowsAt(world, schedule, due[0].nextRunAt, now, rest, i) <==> FollowsAt(world, schedule, next, now, due, i + 1)
    {
    }
    assert FollowsAt(world, schedule, next, now, due, 0)
      <==> due[0].scheduledAt == next <= now && S.Next(world, schedule, next) == Success(due[0].nextRunAt);
    hide FollowsAt;
    if FollowsNext(world, schedule, due[0].nextRunAt, now, rest) && FollowsAt(world, schedule, next, now, due, 0) {
      forall i | 0 <= i < |due|
        ensures FollowsAt(world, schedule, next, now, due, i)
      {
        if i > 0 { assert FollowsAt(world, schedule, due[0].nextRunAt, now, rest, i - 1); }
      }
    }
  }

  // What an unlimited pass collects starts at the cursor, follows Next from one instant to the following, and ends with
  // the first that is not due.
  lemma {:induction false} CollectedExactly(world: World, schedule: S.Schedule, next: Instant, now: Instant, due: seq<Due>)
    ensures Unbounded(world, schedule, next, now, due) <==>
            && FollowsNext(world, schedule, next, now, due)
            && now < (if due == [] then next else due[|due| - 1].nextRunAt)
    decreases |due|
  {
    hide S.Next;
    if due != [] {
      UnboundedUnfolds(world, schedule, next, now, due);
      FollowsUnfolds(world, schedule, next, now, due);
      CollectedExactly(world, schedule, due[0].nextRunAt, now, due[1..]);
      hide Unbounded, FollowsNext;
      assert |due| > 1 ==> due[1..][|due| - 2] == due[|due| - 1];
    }
  }
}
