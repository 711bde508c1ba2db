/** Schedules: typed rules, their persisted definitions and Next (pkg/cron/schedule.go). */
module CronSchedule {
  import opened Wrappers
  import opened GoIntegers
  import opened GoStrings
  import opened CronTime

  datatype RuleKind = Invalid | Daily | Weekly | Monthly | LastDay | Every | Raw

  /** An hour and minute as a constructor left them; `bad` is a retained input error. */
  datatype TimeOfDay = TimeOfDay(hour: int, minute: int, bad: bool)

  datatype Rule = Rule(kind: RuleKind, at: TimeOfDay, weekday: int, monthDay: int, interval: int64, raw: string,
                       bad: bool)

  datatype Schedule = Schedule(rule: Rule, location: Option<string>, anchor: Instant, hasAnchor: bool)

  /** Canonical text, one form per kind; the persisted field may also be empty or some other text. */
  datatype Canonical =
    | NoText
    | DailyText(minute: int, hour: int)
    | WeeklyText(minute: int, hour: int, weekday: int)
    | MonthlyText(minute: int, hour: int, monthDay: int)
    | LastDayText(minute: int, hour: int)
    | EveryText(interval: int64)
    | CronText(text: string)

  datatype DefinitionKind = KindDaily | KindWeekly | KindMonthly | KindLastDay | KindEvery | KindRaw | KindOther(text: string)

  datatype ScheduleDefinition = ScheduleDefinition(
    kind: DefinitionKind, timezone: string, canonical: Canonical,
    hour: int, minute: int, weekday: int, monthDay: int,
    interval: int64, anchor: Instant, hasAnchor: bool)

  datatype ScheduleError =
    | NoLocation | NotPortable | BadRule | AnchorNotAllowed | ZeroAnchor | NoOccurrence
    | TimezoneRequired | UnknownKind | CanonicalMismatch

  const NO_TIME := TimeOfDay(0, 0, false)
  const NO_INTERVAL: int64 := 0

  function At24(hour: int, minute: int): TimeOfDay {
    TimeOfDay(hour, minute, !(0 <= hour <= 23 && 0 <= minute <= 59))
  }

  function DailyRule(at: TimeOfDay): Rule { Rule(Daily, at, 0, 0, NO_INTERVAL, "", at.bad) }

  function WeeklyRule(day: int, at: TimeOfDay): Rule {
    Rule(Weekly, at, day, 0, NO_INTERVAL, "", at.bad || !(0 <= day <= 6))
  }

  function MonthlyRule(day: int, at: TimeOfDay): Rule {
    Rule(Monthly, at, 0, day, NO_INTERVAL, "", at.bad || !(1 <= day <= 31))
  }

  function LastDayRule(at: TimeOfDay): Rule { Rule(LastDay, at, 0, 0, NO_INTERVAL, "", at.bad) }

  predicate GoodInterval(interval: int64) {
    interval as int >= MICROSECOND && interval as int % MICROSECOND == 0
  }

  function EveryRule(interval: int64): Rule { Rule(Every, NO_TIME, 0, 0, interval, "", !GoodInterval(interval)) }

  /** Raw keeps the trimmed expression; its inner spaces are normalized wherever it is read. */
  function RawRule(expression: string): Rule { Rule(Raw, NO_TIME, 0, 0, NO_INTERVAL, TrimSpace(expression), false) }

  function Spec(rule: Rule): Schedule { Schedule(rule, Some("UTC"), 0, false) }

  function Anchored(s: Schedule, anchor: Instant): Schedule {
    s.(anchor := TruncateTo(anchor, MICROSECOND), hasAnchor := true)
  }

  predicate Portable(world: World, zone: string) {
    zone == "UTC" || world.knownZone(zone)
  }

  predicate GoodTime(at: TimeOfDay) {
    !at.bad && 0 <= at.hour <= 23 && 0 <= at.minute <= 59
  }

  predicate ParsesRaw(world: World, raw: string) {
    1 <= |Normalize(raw)| <= 256 && world.rawParses(Normalize(raw))
  }

  function Validate(world: World, s: Schedule): Option<ScheduleError> {
    if s.location.None? then Some(NoLocation)
    else if s.location.value == "Local" || !Portable(world, s.location.value) then Some(NotPortable)
    else if s.rule.bad then Some(BadRule)
    else if s.hasAnchor && s.rule.kind != Every then Some(AnchorNotAllowed)
    else if s.hasAnchor && s.anchor == 0 then Some(ZeroAnchor)
    else
      match s.rule.kind
      case Daily => if GoodTime(s.rule.at) then None else Some(BadRule)
      case Weekly => if GoodTime(s.rule.at) then None else Some(BadRule)
      case Monthly => if GoodTime(s.rule.at) then None else Some(BadRule)
      case LastDay => if GoodTime(s.rule.at) then None else Some(BadRule)
      case Every => if GoodInterval(s.rule.interval) then None else Some(BadRule)
      case Raw => if ParsesRaw(world, s.rule.raw) then None else Some(BadRule)
      case Invalid => Some(BadRule)
  }

  predicate Valid(world: World, s: Schedule) {
    Validate(world, s).None?
  }

  function CanonicalOf(rule: Rule): Canonical {
    match rule.kind
    case Daily => DailyText(rule.at.minute, rule.at.hour)
    case Weekly => WeeklyText(rule.at.minute, rule.at.hour, rule.weekday)
    case Monthly => MonthlyText(rule.at.minute, rule.at.hour, rule.monthDay)
    case LastDay => LastDayText(rule.at.minute, rule.at.hour)
    case Every => EveryText(rule.interval)
    case Raw => CronText(Normalize(rule.raw))
    case Invalid => NoText
  }

  function KindOf(rule: Rule): DefinitionKind {
    match rule.kind
    case Daily => KindDaily
    case Weekly => KindWeekly
    case Monthly => KindMonthly
    case LastDay => KindLastDay
    case Every => KindEvery
    case Raw => KindRaw
    case Invalid => KindOther("")
  }

  function Definition(world: World, s: Schedule): Result<ScheduleDefinition, ScheduleError> {
    match Validate(world, s)
    case Some(error) => Failure(error)
    case None =>
      Success(ScheduleDefinition(
        KindOf(s.rule), s.location.value, CanonicalOf(s.rule),
        s.rule.at.hour, s.rule.at.minute, s.rule.weekday, s.rule.monthDay,
        if s.rule.kind == Every then s.rule.interval else NO_INTERVAL, s.anchor, s.hasAnchor))
  }

  function RuleFromDefinition(d: ScheduleDefinition): Option<Rule> {
    var at := At24(d.hour, d.minute);
    match d.kind
    case KindDaily => Some(DailyRule(at))
    case KindWeekly => Some(WeeklyRule(d.weekday, at))
    case KindMonthly => Some(MonthlyRule(d.monthDay, at))
    case KindLastDay => Some(LastDayRule(at))
    case KindEvery => Some(EveryRule(d.interval))
    case KindRaw => Some(RawRule(if d.canonical.CronText? then d.canonical.text else ""))
    case KindOther(_) => None
  }

  function ScheduleFromDefinition(world: World, d: ScheduleDefinition): Result<Schedule, ScheduleError> {
    if d.timezone == "" then Failure(TimezoneRequired)
    else if !Portable(world, d.timezone) then Failure(NotPortable)
    else
      match RuleFromDefinition(d)
      case None => Failure(UnknownKind)
      case Some(rule) =>
        var unanchored := Spec(rule).(location := Some(d.timezone));
        var s := if d.hasAnchor then Anchored(unanchored, d.anchor) else unanchored;
        match Validate(world, s)
        case Some(error) => Failure(error)
        case None =>
          if d.canonical != NoText && d.canonical != CanonicalOf(s.rule) then Failure(CanonicalMismatch)
          else Success(s)
  }

  /** Schedules as the constructors, In and Anchor build them. */
  predicate Constructed(s: Schedule) {
    && s.location != Some("")
    && (s.hasAnchor ==> s.anchor % MICROSECOND == 0)
    && (!s.hasAnchor ==> s.anchor == 0)
    && match s.rule.kind
       case Daily => s.rule == DailyRule(At24(s.rule.at.hour, s.rule.at.minute))
       case Weekly => s.rule == WeeklyRule(s.rule.weekday, At24(s.rule.at.hour, s.rule.at.minute))
       case Monthly => s.rule == MonthlyRule(s.rule.monthDay, At24(s.rule.at.hour, s.rule.at.minute))
       case LastDay => s.rule == LastDayRule(At24(s.rule.at.hour, s.rule.at.minute))
       case Every => s.rule == EveryRule(s.rule.interval)
       case Raw => s.rule == RawRule(s.rule.raw)
       case Invalid => true
  }

  /** The schedule with its raw expression, if it has one, in canonical spacing. */
  function Spaced(s: Schedule): Schedule {
    if s.rule.kind == Raw then s.(rule := RawRule(Normalize(s.rule.raw))) else s
  }

  lemma SpacedIsCanonical(world: World, s: Schedule)
    requires Constructed(s)
    ensures Constructed(Spaced(s)) && Spaced(Spaced(s)) == Spaced(s)
    ensures CanonicalOf(Spaced(s).rule) == CanonicalOf(s.rule) && Validate(world, Spaced(s)) == Validate(world, s)
    ensures s.rule.kind == Raw ==> Spaced(s).rule.raw == Normalize(s.rule.raw) == Normalize(Spaced(s).rule.raw)
  {
    NormalizeIsIdempotent(s.rule.raw);
    hide Normalize, TrimSpace;
  }

  // A constructed schedule projects exactly when it is valid, and its definition rebuilds it: the same schedule if and
  // only if a raw expression has canonical spacing, and otherwise the one with that spacing.
  lemma DefinitionRoundTrip(world: World, s: Schedule)
    requires Constructed(s)
    ensures Definition(world, s).Success? <==> Valid(world, s)
    ensures Valid(world, s) ==> ScheduleFromDefinition(world, Definition(world, s).value) == Success(Spaced(s))
    ensures Spaced(s) == s <==> s.rule.kind == Raw ==> Normalize(s.rule.raw) == s.rule.raw
  {
    SpacedIsCanonical(world, s);
    hide Normalize, TrimSpace;
  }

  // Rebuilding from the definition changes nothing that a schedule is for: the definition and every next time.
  lemma RebuiltScheduleAgrees(world: World, s: Schedule, after: Instant)
    requires Constructed(s) && Valid(world, s)
    ensures Valid(world, Spaced(s)) && Definition(world, Spaced(s)) == Definition(world, s)
    ensures Next(world, Spaced(s), after) == Next(world, s, after)
  {
    SpacedIsCanonical(world, s);
    hide Normalize, TrimSpace, NextInterval, FirstMatch;
  }

  lemma RuleIsRebuilt(d: ScheduleDefinition)
    requires RuleFromDefinition(d).Some?
    ensures var rule := RuleFromDefinition(d).value;
            && KindOf(rule) == d.kind
            && (rule.kind == Raw ==> rule == RawRule(rule.raw))
            && (rule.kind in {Daily, Weekly, Monthly, LastDay} ==> rule.at == At24(rule.at.hour, rule.at.minute))
  {
    var text := if d.canonical.CronText? then d.canonical.text else "";
    TrimIsIdempotent(text);
    hide Normalize, TrimSpace;
  }

  lemma RebuiltIsConstructed(world: World, d: ScheduleDefinition)
    requires ScheduleFromDefinition(world, d).Success?
    ensures var s := ScheduleFromDefinition(world, d).value;
            && Constructed(s) && Valid(world, s) && s.location == Some(d.timezone) && KindOf(s.rule) == d.kind
            && RuleFromDefinition(d) == Some(s.rule) && d.canonical in {NoText, CanonicalOf(s.rule)}
  {
    RuleIsRebuilt(d);
    hide Normalize, TrimSpace, GoodInterval;
  }

  // A persisted definition is accepted only if what it rebuilds projects back to it, up to the empty
  // canonical text, sub-microsecond anchors and the fields its kind ignores.
  lemma RebuiltScheduleIsConstructed(world: World, d: ScheduleDefinition)
    requires ScheduleFromDefinition(world, d).Success?
    ensures var s := ScheduleFromDefinition(world, d).value;
            && Constructed(s) && Valid(world, s) && s.location == Some(d.timezone) && KindOf(s.rule) == d.kind
            && ScheduleFromDefinition(world, Definition(world, s).value) == Success(s)
            && (d.canonical in {NoText, CanonicalOf(s.rule)})
  {
    var s := ScheduleFromDefinition(world, d).value;
    RebuiltIsConstructed(world, d);
    if d.kind == KindRaw {
      RawTextIsCanonical(world, d);
    }
    DefinitionRoundTrip(world, s);
    hide Normalize, TrimSpace, Validate, Constructed, Definition, ScheduleFromDefinition;
  }

  /** A raw text that is accepted is its own canonical text, so it is spaced canonically. */
  lemma RawTextIsCanonical(world: World, d: ScheduleDefinition)
    requires ScheduleFromDefinition(world, d).Success? && d.kind == KindRaw
    ensures Spaced(ScheduleFromDefinition(world, d).value) == ScheduleFromDefinition(world, d).value
  {
    assert Normalize("") == "" && TrimSpace("") == "";
    hide Normalize, TrimSpace;
  }

  // ---- Next for intervals ----

  /** 1970-01-01T00:00:00Z, the anchor of an interval rule that has none. */
  const UNIX_EPOCH: Instant := 62_135_596_800_000_000_000

  function AnchorOf(s: Schedule): Instant {
    if s.hasAnchor then s.anchor else UNIX_EPOCH
  }

  function NextInterval(anchor: Instant, interval: int, after: Instant): Instant
    requires interval >= MICROSECOND
  {
    if after < anchor then anchor
    else
      var steps := Quotient(SaturateInt64(after - anchor), interval) + 1;
      anchor + WrapInt64(steps * interval)
  }

  /** t is the least instant of the form anchor + k * interval, k >= 0, strictly after `after`. */
  ghost predicate LeastTickAfter(t: Instant, anchor: Instant, interval: int, after: Instant) {
    && after < t
    && (exists k: nat :: t == anchor + k * interval)
    && forall k: nat :: after < anchor + k * interval ==> t <= anchor + k * interval
  }

  /** The interval still fits: one more whole step from the anchor is below 2^63 nanoseconds. */
  predicate StepFits(anchor: Instant, interval: int, after: Instant)
    requires interval >= MICROSECOND
  {
    after < anchor + (MAX_INT64 / interval) * interval
  }

  lemma ProductMonotone(a: int, b: int, c: int)
    requires a <= b && c >= 0
    ensures a * c <= b * c
  {
  }

  lemma QuotientBounds(a: int, b: int)
    requires a >= 0 && b > 0
    ensures 0 <= (a / b) * b <= a < (a / b + 1) * b
  {
  }

  // The tick after the last whole step is the least one past `after`.
  lemma StepIsLeast(anchor: Instant, interval: int, after: Instant)
    requires interval >= MICROSECOND && after >= anchor
    ensures LeastTickAfter(anchor + ((after - anchor) / interval + 1) * interval, anchor, interval, after)
  {
    var k: nat := (after - anchor) / interval + 1;
    QuotientBounds(after - anchor, interval);
    forall j: nat | after < anchor + j * interval
      ensures k * interval <= j * interval
    {
      if j < k {
        ProductMonotone(j, k - 1, interval);
        assert false;
      }
      ProductMonotone(k, j, interval);
    }
    assert anchor + k * interval == anchor + ((after - anchor) / interval + 1) * interval;
  }

  lemma StepFitsExactly(anchor: Instant, interval: int, after: Instant)
    requires interval >= MICROSECOND && after >= anchor
    ensures StepFits(anchor, interval, after) <==> ((after - anchor) / interval + 1) * interval <= MAX_INT64
  {
    var k, most := (after - anchor) / interval + 1, MAX_INT64 / interval;
    QuotientBounds(after - anchor, interval);
    QuotientBounds(MAX_INT64, interval);
    if k <= most {
      ProductMonotone(k, most, interval);
    } else {
      ProductMonotone(most + 1, k, interval);
      ProductMonotone(most, k - 1, interval);
    }
  }

  lemma WrappedStep(anchor: Instant, interval: int, after: Instant)
    requires MICROSECOND <= interval <= MAX_INT64 && after >= anchor
    ensures after - anchor <= MAX_INT64 && ((after - anchor) / interval + 1) * interval <= MAX_INT64 ==>
              NextInterval(anchor, interval, after) == anchor + ((after - anchor) / interval + 1) * interval
    ensures after - anchor > MAX_INT64 || ((after - anchor) / interval + 1) * interval > MAX_INT64 ==>
              NextInterval(anchor, interval, after) < anchor
  {
    var elapsed := SaturateInt64(after - anchor);
    QuotientBounds(elapsed, interval);
    var product := (elapsed / interval + 1) * interval;
    assert elapsed < product <= elapsed + interval;
    assert NextInterval(anchor, interval, after) == anchor + WrapInt64(product);
  }

  // NextInterval is right exactly while the step still fits in a 64-bit duration; past that the product
  // wraps and the answer lies before the anchor.
  lemma NextIntervalExactly(anchor: Instant, interval: int, after: Instant)
    requires MICROSECOND <= interval <= MAX_INT64
    ensures LeastTickAfter(NextInterval(anchor, interval, after), anchor, interval, after) <==>
            after < anchor || StepFits(anchor, interval, after)
    ensures after >= anchor && !StepFits(anchor, interval, after) ==>
            NextInterval(anchor, interval, after) < anchor
  {
    if after < anchor {
      assert anchor == anchor + 0 * interval;
      forall k: nat
        ensures anchor <= anchor + k * interval
      {
        ProductMonotone(0, k, interval);
      }
    } else {
      hide NextInterval, StepFits;
      StepIsLeast(anchor, interval, after);
      StepFitsExactly(anchor, interval, after);
      WrappedStep(anchor, interval, after);
      QuotientBounds(after - anchor, interval);
    }
  }

  // ---- Next for calendar rules ----

  predicate MatchesAt(c: Civil, at: TimeOfDay) {
    c.hour == at.hour && c.minute == at.minute
  }

  predicate Matches(world: World, s: Schedule, t: Instant)
    requires s.location.Some?
  {
    var c := CivilFields(world, s.location.value, t);
    match s.rule.kind
    case Daily => MatchesAt(c, s.rule.at)
    case Weekly => c.weekday == s.rule.weekday && MatchesAt(c, s.rule.at)
    case Monthly => c.date.day == s.rule.monthDay && MatchesAt(c, s.rule.at)
    case LastDay =>
      c.date.day == LastDayOfMonth(world, s.location.value, c.date.year, c.date.month) && MatchesAt(c, s.rule.at)
    case _ => false
  }

  predicate TypedCalendar(s: Schedule) {
    s.rule.kind in {Daily, Weekly, Monthly, LastDay}
  }

  /** The minutes Next looks at: whole UTC minutes after `after`, for five calendar years. */
  function FirstCandidate(after: Instant): (c: Instant)
    ensures after < c <= after + MINUTE && c % MINUTE == 0
  {
    TruncateTo(after, MINUTE) + MINUTE
  }

  function Deadline(after: Instant): Instant {
    AddYears(FirstCandidate(after), 5)
  }

  /** The first matching whole minute from `candidate` up to the deadline. */
  function FirstMatch(world: World, s: Schedule, candidate: Instant, deadline: Instant): Option<Instant>
    requires s.location.Some?
    decreases deadline - candidate
  {
    if candidate > deadline then None
    else if Matches(world, s, candidate) then Some(candidate)
    else FirstMatch(world, s, candidate + MINUTE, deadline)
  }

  function Next(world: World, s: Schedule, after: Instant): Result<Instant, ScheduleError> {
    match Validate(world, s)
    case Some(error) => Failure(error)
    case None =>
      if s.rule.kind == Every then Success(NextInterval(AnchorOf(s), s.rule.interval as int, after))
      else if s.rule.kind == Raw then Success(world.rawNext(Normalize(s.rule.raw), s.location.value, after))
      else
        match FirstMatch(world, s, FirstCandidate(after), Deadline(after))
        case Some(t) => Success(t)
        case None => Failure(NoOccurrence)
  }

  lemma NextOfEvery(world: World, s: Schedule, after: Instant)
    requires Valid(world, s) && s.rule.kind == Every
    ensures 0 < MICROSECOND <= s.rule.interval as int <= MAX_INT64
    ensures Next(world, s, after) == Success(NextInterval(AnchorOf(s), s.rule.interval as int, after))
  {
    hide NextInterval, FirstMatch;
  }

  // Next answers a valid interval rule with its least tick strictly after the argument if and only if the argument lies
  // before the anchor or one more step still fits in a 64-bit duration; otherwise the answer lies before the anchor.
  lemma NextEveryExactly(world: World, s: Schedule, after: Instant)
    requires Valid(world, s) && s.rule.kind == Every
    ensures var anchor, interval := if s.hasAnchor then s.anchor else UNIX_EPOCH, s.rule.interval as int;
            && interval >= MICROSECOND && Next(world, s, after).Success?
            && (LeastTickAfter(Next(world, s, after).value, anchor, interval, after) <==>
                after < anchor || StepFits(anchor, interval, after))
            && (after >= anchor && !StepFits(anchor, interval, after) ==> Next(world, s, after).value < anchor)
  {
    NextOfEvery(world, s, after);
    hide Next, Validate, LeastTickAfter, StepFits;
    NextIntervalExactly(AnchorOf(s), s.rule.interval as int, after);
  }

  /** A valid schedule with an interval of 100 years of 365.25 days, without an anchor of its own. */
  function EveryCentury(): Schedule {
    Spec(EveryRule(3_155_760_000_000_000_000))
  }

  // On it, asked for the first tick after its second one, Next answers with a time before its anchor.
  lemma NextEveryCanWrap(world: World)
    ensures Valid(world, EveryCentury())
    ensures var after := UNIX_EPOCH + 2 * 3_155_760_000_000_000_000;
            Next(world, EveryCentury(), after).Success? && Next(world, EveryCentury(), after).value < UNIX_EPOCH < after
  {
    var after := UNIX_EPOCH + 2 * 3_155_760_000_000_000_000;
    assert !StepFits(UNIX_EPOCH, 3_155_760_000_000_000_000, after);
    assert AnchorOf(EveryCentury()) == UNIX_EPOCH;
    hide Next, StepFits;
    NextEveryExactly(world, EveryCentury(), after);
  }

  lemma WholeSteps(m: int, interval: int)
    requires m >= 0 && interval > 0
    ensures m * interval >= 0 && m * interval / interval == m
  {
    ProductMonotone(0, m, interval);
    QuotientBounds(m * interval, interval);
    var q := m * interval / interval;
    if q < m {
      ProductMonotone(q + 1, m, interval);
    } else if q > m {
      ProductMonotone(m + 1, q, interval);
    }
  }

  // From one tick an interval rule goes on to the following one.
  lemma NextTick(world: World, s: Schedule, anchor: Instant, interval: int, m: nat)
    requires Valid(world, s) && s.rule.kind == Every
    requires anchor == AnchorOf(s) && interval == s.rule.interval as int && (m + 1) * interval <= MAX_INT64
    ensures Next(world, s, anchor + m * interval) == Success(anchor + (m + 1) * interval)
  {
    hide *;
    var product := m * interval;
    NextOfEvery(world, s, anchor + product);
    ProductMonotone(m, m + 1, interval);
    WholeSteps(m, interval);
    WrappedStep(anchor, interval, anchor + product);
    assert (anchor + product) - anchor == product;
  }

  // What FirstMatch finds is the least matching minute in its window, and it finds one if there is one.
  lemma {:induction false} FirstMatchIsLeast(world: World, s: Schedule, candidate: Instant, deadline: Instant)
    requires s.location.Some?
    ensures var r := FirstMatch(world, s, candidate, deadline);
            && (r.Some? ==> candidate <= r.value <= deadline && Matches(world, s, r.value)
                            && (r.value - candidate) % MINUTE == 0)
            && (forall t | candidate <= t <= deadline && (t - candidate) % MINUTE == 0 && Matches(world, s, t) ::
                  r.Some? && r.value <= t)
    decreases deadline - candidate
  {
    hide Matches;
    if candidate <= deadline && !Matches(world, s, candidate) {
      FirstMatchIsLeast(world, s, candidate + MINUTE, deadline);
      forall t | candidate <= t <= deadline && (t - candidate) % MINUTE == 0 && Matches(world, s, t)
        ensures candidate + MINUTE <= t && (t - (candidate + MINUTE)) % MINUTE == 0
      {
      }
    }
  }

  /** The calendar branch of Next as the source runs it. */
  method ScanMinutes(world: World, s: Schedule, after: Instant) returns (r: Option<Instant>)
    requires s.location.Some? && TypedCalendar(s)
    ensures r == FirstMatch(world, s, FirstCandidate(after), Deadline(after))
  {
    var candidate := TruncateTo(after, MINUTE) + MINUTE;
    var deadline := AddYears(candidate, 5);
    while candidate <= deadline
      invariant FirstMatch(world, s, candidate, deadline) == FirstMatch(world, s, FirstCandidate(after), deadline)
      decreases deadline - candidate
    {
      if Matches(world, s, candidate) {
        return Some(candidate);
      }
      candidate := candidate + MINUTE;
    }
    return None;
  }

  lemma MinuteGrid(after: Instant, t: Instant)
    ensures after < t && t % MINUTE == 0 ==> FirstCandidate(after) <= t
    ensures t % MINUTE == 0 <==> (t - FirstCandidate(after)) % MINUTE == 0
  {
    var q := FirstCandidate(after) / MINUTE;
    assert FirstCandidate(after) == q * MINUTE;
    assert t == (t / MINUTE) * MINUTE + t % MINUTE;
    assert t - FirstCandidate(after) == (t / MINUTE - q) * MINUTE + t % MINUTE;
  }

  // Next answers a calendar rule with the least matching whole minute strictly after its argument.
  lemma NextCalendarIsLeast(world: World, s: Schedule, after: Instant)
    requires Valid(world, s) && TypedCalendar(s)
    ensures Next(world, s, after).Success? ==>
              var t := Next(world, s, after).value;
              after < t && t % MINUTE == 0 && Matches(world, s, t)
    ensures forall t | after < t <= Deadline(after) && t % MINUTE == 0 && Matches(world, s, t) ::
              Next(world, s, after).Success? && Next(world, s, after).value <= t
  {
    hide FirstCandidate, Deadline, FirstMatch, Matches;
    var r := FirstMatch(world, s, FirstCandidate(after), Deadline(after));
    FirstMatchIsLeast(world, s, FirstCandidate(after), Deadline(after));
    if r.Some? {
      MinuteGrid(after, r.value);
    }
    forall t | after < t && t % MINUTE == 0
      ensures FirstCandidate(after) <= t && (t - FirstCandidate(after)) % MINUTE == 0
    {
      MinuteGrid(after, t);
    }
  }

  // ---- UTC: every valid typed rule finds an occurrence long before the deadline ----

  lemma {:induction false} MonthShift(year: int, other: int, month: int)
    requires 1 <= month <= 12
    ensures -1 <= DaysBeforeMonth(other, month) - DaysBeforeMonth(year, month) <= 1
    ensures month <= 2 ==> DaysBeforeMonth(other, month) == DaysBeforeMonth(year, month)
    decreases month
  {
    if month > 1 {
      MonthShift(year, other, month - 1);
      if month > 3 {
        MonthShift(year, other, 3);
        LaterMonthsAgree(year, other, month);
      }
    }
  }

  lemma {:induction false} LaterMonthsAgree(year: int, other: int, month: int)
    requires 3 <= month <= 12
    ensures DaysBeforeMonth(other, month) - DaysBeforeMonth(year, month) == DaysBeforeMonth(other, 3) - DaysBeforeMonth(year, 3)
    decreases month
  {
    if month > 3 {
      LaterMonthsAgree(year, other, month - 1);
    }
  }

  lemma FiveYearsOfDays(date: Date)
    requires ValidDate(date)
    ensures DayNumber(date.(year := date.year + 5)) >= DayNumber(date) + 1_824
  {
    hide DaysBeforeYear, Leap, DaysBeforeMonth;
    YearLength(date.year);
    YearLength(date.year + 1);
    YearLength(date.year + 2);
    YearLength(date.year + 3);
    YearLength(date.year + 4);
    MonthShift(date.year, date.year + 5, date.month);
  }

  lemma FiveYearsIsLong(t: Instant)
    ensures AddYears(t, 5) >= t + 1_824 * DAY
  {
    hide DayNumber;
    DateOfNumber(t / DAY);
    FiveYearsOfDays(DateOf(t / DAY));
  }

  lemma {:induction false} WithinMonth(day: int, ahead: nat)
    requires DateOf(day).day + ahead <= DaysInMonth(DateOf(day).year, DateOf(day).month)
    ensures DateOf(day + ahead) == DateOf(day).(day := DateOf(day).day + ahead)
    decreases ahead
  {
    if ahead > 0 {
      WithinMonth(day, ahead - 1);
      DateOfNext(day + ahead - 1);
    }
  }

  lemma NextMonth(day: int) returns (first: int)
    ensures day < first <= day + 31 && DateOf(first).day == 1
    ensures var d, f := DateOf(day), DateOf(first);
            (f.month == d.month + 1 && f.year == d.year) || (d.month == 12 && f.month == 1)
  {
    hide DateOf, DaysInMonth;
    var d := DateOf(day);
    var last := DaysInMonth(d.year, d.month) - d.day;
    WithinMonth(day, last);
    DateOfNext(day + last);
    first := day + last + 1;
  }

  lemma DayOfMonthRecurs(day: int, monthDay: int) returns (found: int)
    requires 1 <= monthDay <= 31
    ensures day <= found <= day + 92 && DateOf(found).day == monthDay
  {
    hide DateOf, DaysInMonth;
    var d := DateOf(day);
    if d.day <= monthDay <= DaysInMonth(d.year, d.month) {
      WithinMonth(day, monthDay - d.day);
      return day + monthDay - d.day;
    }
    var first := NextMonth(day);
    var f := DateOf(first);
    if monthDay <= DaysInMonth(f.year, f.month) {
      WithinMonth(first, monthDay - 1);
      return first + monthDay - 1;
    }
    // A month without that day is followed by one with 31.
    var second := NextMonth(first);
    WithinMonth(second, monthDay - 1);
    found := second + monthDay - 1;
  }

  lemma LastDayRecurs(day: int) returns (found: int)
    ensures day <= found <= day + 31
    ensures DateOf(found).day == DaysInMonth(DateOf(found).year, DateOf(found).month)
  {
    hide DateOf, DaysInMonth;
    var d := DateOf(day);
    WithinMonth(day, DaysInMonth(d.year, d.month) - d.day);
    found := day + DaysInMonth(d.year, d.month) - d.day;
  }

  function TimeOn(day: int, at: TimeOfDay): Instant {
    day * DAY + (at.hour * 60 + at.minute) * MINUTE
  }

  lemma TimeOfDayOn(day: int, at: TimeOfDay)
    requires GoodTime(at)
    ensures TimeOn(day, at) % MINUTE == 0 && day * DAY <= TimeOn(day, at) < (day + 1) * DAY
    ensures UtcCivil(TimeOn(day, at)) == Civil(DateOf(day), (day + 1) % 7, at.hour, at.minute)
  {
    hide DateOf;
    var offset := (at.hour * 60 + at.minute) * MINUTE;
    var t := day * DAY + offset;
    assert t / DAY == day && t % DAY == offset;
    assert offset / MINUTE == at.hour * 60 + at.minute;
    assert t == (day * MINUTES_PER_DAY + at.hour * 60 + at.minute) * MINUTE;
  }

  /** The days that a typed calendar rule is for; day 0, 0001-01-01, was a Monday. */
  predicate OnRuleDay(s: Schedule, day: int) {
    match s.rule.kind
    case Daily => true
    case Weekly => (day + 1) % 7 == s.rule.weekday
    case Monthly => DateOf(day).day == s.rule.monthDay
    case LastDay => DateOf(day).day == DaysInMonth(DateOf(day).year, DateOf(day).month)
    case _ => false
  }

  lemma RuleDayRecurs(world: World, s: Schedule, day: int) returns (found: int)
    requires Constructed(s) && Valid(world, s) && TypedCalendar(s)
    ensures day <= found <= day + 92 && OnRuleDay(s, found)
  {
    hide DateOf, DaysInMonth;
    match s.rule.kind {
      case Daily => found := day;
      case Weekly => found := day + (s.rule.weekday - (day + 1)) % 7;
      case Monthly => found := DayOfMonthRecurs(day, s.rule.monthDay);
      case LastDay => found := LastDayRecurs(day);
    }
  }

  lemma RuleDayMatches(world: World, s: Schedule, day: int)
    requires TypedCalendar(s) && s.location == Some("UTC") && GoodTime(s.rule.at) && OnRuleDay(s, day)
    ensures Matches(world, s, TimeOn(day, s.rule.at))
  {
    hide UtcCivil, DateOf, GoodTime;
    TimeOfDayOn(day, s.rule.at);
  }

  lemma Tomorrow(candidate: Instant) returns (day: int)
    ensures candidate < day * DAY <= candidate + DAY
  {
    day := candidate / DAY + 1;
  }

  lemma UtcOccurrence(world: World, s: Schedule, after: Instant) returns (t: Instant)
    requires Constructed(s) && Valid(world, s) && TypedCalendar(s) && s.location == Some("UTC")
    ensures after < t <= after + 95 * DAY && t <= Deadline(after) && t % MINUTE == 0 && Matches(world, s, t)
  {
    assert GoodTime(s.rule.at);
    hide Constructed, Validate, GoodTime, Matches, OnRuleDay, UtcCivil, DateOf, AddYears, TimeOn, FirstCandidate;
    var candidate := FirstCandidate(after);
    var day := Tomorrow(candidate);
    var found := RuleDayRecurs(world, s, day);
    t := TimeOn(found, s.rule.at);
    RuleDayMatches(world, s, found);
    TimeOfDayOn(found, s.rule.at);
    FiveYearsIsLong(candidate);
  }

  // In UTC a valid typed calendar rule always has a next occurrence, at most 95 days away.
  lemma UtcAlwaysHasNext(world: World, s: Schedule, after: Instant)
    requires Constructed(s) && Valid(world, s) && TypedCalendar(s) && s.location == Some("UTC")
    ensures Next(world, s, after).Success?
    ensures after < Next(world, s, after).value <= after + 95 * DAY
  {
    hide Next, Constructed, Validate, Matches, Deadline, FirstMatch, FirstCandidate;
    var t := UtcOccurrence(world, s, after);
    NextCalendarIsLeast(world, s, after);
    assert after < t <= Deadline(after) && t % MINUTE == 0 && Matches(world, s, t);
  }

  // ---- What Next answers, in the calendar's own terms ----

  lemma RuleTimeOnly(world: World, s: Schedule, t: Instant)
    requires TypedCalendar(s) && s.location == Some("UTC") && GoodTime(s.rule.at)
    requires t % MINUTE == 0 && Matches(world, s, t)
    ensures OnRuleDay(s, t / DAY) && t == TimeOn(t / DAY, s.rule.at)
  {
    hide DateOf, DaysInMonth;
    WholeMinutes(t);
  }

  lemma WholeMinutes(t: Instant)
    requires t % MINUTE == 0
    ensures var minute := (t % DAY) / MINUTE; t == (t / DAY) * DAY + (minute / 60 * 60 + minute % 60) * MINUTE
  {
    var q := t / MINUTE;
    assert t == q * MINUTE;
    assert DAY == 1440 * MINUTE;
    assert t / DAY == q / 1440;
    assert t % DAY == (q % 1440) * MINUTE;
    assert (t % DAY) / MINUTE == q % 1440;
  }

  // In UTC, Next answers every valid typed rule, with the least instant after its argument that is the rule's hour and
  // minute on one of the rule's days.
  lemma NextIsLeastRuleTime(world: World, s: Schedule, after: Instant)
    requires Constructed(s) && Valid(world, s) && TypedCalendar(s) && s.location == Some("UTC")
    ensures Next(world, s, after).Success?
    ensures var t, offset := Next(world, s, after).value, (s.rule.at.hour * 60 + s.rule.at.minute) * 60_000_000_000;
            && after < t && (exists day :: OnRuleDay(s, day) && t == day * 86_400_000_000_000 + offset)
            && (forall day | OnRuleDay(s, day) && after < day * 86_400_000_000_000 + offset ::
                  t <= day * 86_400_000_000_000 + offset)
  {
    assert GoodTime(s.rule.at);
    hide Next, Constructed, Validate, Matches, Deadline, GoodTime, OnRuleDay, UtcCivil, DateOf;
    UtcAlwaysHasNext(world, s, after);
    NextCalendarIsLeast(world, s, after);
    var t := Next(world, s, after).value;
    RuleTimeOnly(world, s, t);
    var first := UtcOccurrence(world, s, after);
    forall day | OnRuleDay(s, day) && after < TimeOn(day, s.rule.at)
      ensures t <= TimeOn(day, s.rule.at)
    {
      TimeOfDayOn(day, s.rule.at);
      RuleDayMatches(world, s, day);
      assert TimeOn(day, s.rule.at) <= Deadline(after) || first < TimeOn(day, s.rule.at);
    }
  }

  // In every other zone the answer is a whole minute after the argument whose civil fields there are the rule's, and no
  // earlier one is.
  lemma NextHasRuleFields(world: World, s: Schedule, after: Instant)
    requires Valid(world, s) && TypedCalendar(s) && s.location != Some("UTC")
    requires Next(world, s, after).Success?
    ensures var t := Next(world, s, after).value; after < t && t % 60_000_000_000 == 0 && InZone(world, s, t)
    ensures forall t | after < t < Next(world, s, after).value && t % 60_000_000_000 == 0 :: !InZone(world, s, t)
  {
    NextCalendarIsLeast(world, s, after);
    forall t | after < t && t % MINUTE == 0
      ensures InZone(world, s, t) <==> Matches(world, s, t)
    {
    }
    NextWithinDeadline(world, s, after);
    hide Matches, Next, Validate, InZone;
  }

  /** The zone's civil fields of `t` are the rule's. */
  predicate InZone(world: World, s: Schedule, t: Instant)
    requires s.location.Some?
  {
    var zone := s.location.value;
    var c := world.civilIn(zone, t);
    && c.hour == s.rule.at.hour && c.minute == s.rule.at.minute
    && (s.rule.kind == Weekly ==> c.weekday == s.rule.weekday)
    && (s.rule.kind == Monthly ==> c.date.day == s.rule.monthDay)
    && (s.rule.kind == LastDay ==> c.date.day == world.lastDayIn(zone, c.date.year, c.date.month))
  }

  lemma NextWithinDeadline(world: World, s: Schedule, after: Instant)
    requires Valid(world, s) && TypedCalendar(s) && Next(world, s, after).Success?
    ensures Next(world, s, after).value <= Deadline(after)
  {
    FirstMatchIsLeast(world, s, FirstCandidate(after), Deadline(after));
    hide FirstMatch, Matches, Deadline, FirstCandidate;
  }

  // A constructed schedule is valid exactly when its zone and anchor are usable and its rule is in range.
  lemma ValidExactly(world: World, s: Schedule)
    requires Constructed(s)
    ensures Valid(world, s) <==>
            && s.location.Some? && s.location.value != "Local" && (s.location.value == "UTC" || world.knownZone(s.location.value))
            && (s.hasAnchor ==> s.rule.kind == Every && s.anchor != 0)
            && match s.rule.kind
               case Daily => 0 <= s.rule.at.hour <= 23 && 0 <= s.rule.at.minute <= 59
               case Weekly => 0 <= s.rule.at.hour <= 23 && 0 <= s.rule.at.minute <= 59 && 0 <= s.rule.weekday <= 6
               case Monthly => 0 <= s.rule.at.hour <= 23 && 0 <= s.rule.at.minute <= 59 && 1 <= s.rule.monthDay <= 31
               case LastDay => 0 <= s.rule.at.hour <= 23 && 0 <= s.rule.at.minute <= 59
               case Every => 1000 <= s.rule.interval as int && s.rule.interval as int % 1000 == 0
               case Raw => 1 <= |Normalize(s.rule.raw)| <= 256 && world.rawParses(Normalize(s.rule.raw))
               case Invalid => false
  {
    hide Normalize, TrimSpace;
  }

  // The persisted definition names the rule's own fields.
  lemma DefinitionNamesTheRule(world: World, s: Schedule)
    requires Constructed(s) && Valid(world, s)
    ensures var d := Definition(world, s).value;
            && Definition(world, s).Success? && d.timezone == s.location.value
            && (d.anchor, d.hasAnchor) == (s.anchor, s.hasAnchor)
            && (s.rule.kind in {Daily, Weekly, Monthly, LastDay} ==> (d.hour, d.minute) == (s.rule.at.hour, s.rule.at.minute))
            && match s.rule.kind
               case Daily => d.kind == KindDaily && d.canonical == DailyText(d.minute, d.hour)
               case Weekly =>
                 d.kind == KindWeekly && d.weekday == s.rule.weekday && d.canonical == WeeklyText(d.minute, d.hour, d.weekday)
               case Monthly =>
                 d.kind == KindMonthly && d.monthDay == s.rule.monthDay
                 && d.canonical == MonthlyText(d.minute, d.hour, d.monthDay)
               case LastDay => d.kind == KindLastDay && d.canonical == LastDayText(d.minute, d.hour)
               case Every => d.kind == KindEvery && d.interval == s.rule.interval && d.canonical == EveryText(d.interval)
               case Raw => d.kind == KindRaw && d.canonical == CronText(Normalize(s.rule.raw))
               case Invalid => false
  {
    hide Normalize, TrimSpace;
  }

  // A raw expression's next time is the cron parser's for its normalized text, in the schedule's zone.
  lemma NextOfRaw(world: World, s: Schedule, after: Instant)
    requires Valid(world, s) && s.rule.kind == Raw
    ensures Next(world, s, after) == Success(world.rawNext(Normalize(s.rule.raw), s.location.value, after))
  {
    hide Normalize;
  }

  // The default anchor is 1970-01-01, which was a Thursday.
  lemma EpochIs1970()
    ensures UNIX_EPOCH == DayNumber(Date(1970, 1, 1)) * DAY && (DayNumber(Date(1970, 1, 1)) + 1) % 7 == 4
  {
  }
}
