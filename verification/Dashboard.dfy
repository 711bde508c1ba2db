/** The dashboard's streaming read of one run's event log, with its retention window (csf/dashboard.go). */
module Dashboard {
  import opened Sequences
  import opened Wrappers

  const MAX_EVENT_BYTES := 16_777_216
  const MAX_METRICS := 128
  const MAX_VIEW_EVENTS := 20_000
  const MAX_VIEW_ISSUES := 128

  datatype Definition = Definition(name: string, content: string)

  datatype Payload =
    | Defines(definition: Definition)
    | Measures(metric: string, finite: bool, measuredRun: string)
    | Reports(reportedRun: string, phase: string)
    | NoPayload

  datatype Event = Event(supported: bool, recordedAt: string, payload: Payload)

  /** One token of the scanner: its size, whether it is blank or still unterminated, and what the decoder makes of it. */
  datatype Line = Line(size: nat, blank: bool, terminated: bool, decoded: Option<Event>)

  datatype Retained = Retained(event: Event, bytes: nat)

  type Definitions = map<string, Definition>

  /** What one line is, given the definitions registered so far. */
  datatype Verdict = Skipped | Rejected | Registered(event: Event) | Repeated | Observed(event: Event)

  function Judge(valid: Definition -> bool, definitions: Definitions, line: Line): Verdict {
    if line.blank || !line.terminated then Skipped
    else if line.decoded.None? || !line.decoded.value.supported || line.decoded.value.recordedAt == "" then Rejected
    else
      var event := line.decoded.value;
      match event.payload
      case Defines(definition) =>
        if !valid(definition) then Rejected
        else if definition.name in definitions then
          (if definitions[definition.name] == definition then Repeated else Rejected)
        else if |definitions| >= MAX_METRICS then Rejected
        else Registered(event)
      case Measures(metric, finite, run) =>
        if metric in definitions && finite && run != "" then Observed(event) else Rejected
      case Reports(run, phase) => if run != "" && phase != "" then Observed(event) else Rejected
      case NoPayload => Rejected
  }

  // ---- The whole log ----

  /** The definitions after a log: the first of each name, up to the capacity. */
  function DefinitionsOf(valid: Definition -> bool, lines: seq<Line>): Definitions {
    if lines == [] then map[]
    else
      var before := DefinitionsOf(valid, lines[..|lines| - 1]);
      var verdict := Judge(valid, before, lines[|lines| - 1]);
      if verdict.Registered? && verdict.event.payload.Defines? then
        before[verdict.event.payload.definition.name := verdict.event.payload.definition]
      else before
  }

  function VerdictAt(valid: Definition -> bool, lines: seq<Line>, k: nat): Verdict
    requires k < |lines|
  {
    Judge(valid, DefinitionsOf(valid, lines[..k]), lines[k])
  }

  /** The definition events of a log, each where its metric is first registered. */
  function Registrations(valid: Definition -> bool, lines: seq<Line>): seq<Event> {
    if lines == [] then []
    else
      var n := |lines| - 1;
      var before := Registrations(valid, lines[..n]);
      var verdict := VerdictAt(valid, lines, n);
      if verdict.Registered? then before + [verdict.event] else before
  }

  /** The accepted observations of a log with their sizes. */
  function Observations(valid: Definition -> bool, lines: seq<Line>): seq<Retained> {
    if lines == [] then []
    else
      var n := |lines| - 1;
      var before := Observations(valid, lines[..n]);
      var verdict := VerdictAt(valid, lines, n);
      if verdict.Observed? then before + [Retained(verdict.event, lines[n].size)] else before
  }

  function Rejections(valid: Definition -> bool, lines: seq<Line>): nat {
    if lines == [] then 0
    else
      var n := |lines| - 1;
      Rejections(valid, lines[..n]) + if VerdictAt(valid, lines, n).Rejected? then 1 else 0
  }

  // ---- The retention window ----

  function Bytes(list: seq<Retained>): nat {
    if list == [] then 0 else list[0].bytes + Bytes(list[1..])
  }

  predicate Fits(list: seq<Retained>) {
    |list| <= MAX_VIEW_EVENTS - MAX_METRICS && Bytes(list) <= MAX_EVENT_BYTES
  }

  /** Drops from the front until both bounds hold. */
  function Window(list: seq<Retained>): seq<Retained> {
    if list == [] || Fits(list) then list else Window(list[1..])
  }

  lemma {:induction false} WindowIsFittingSuffix(list: seq<Retained>)
    ensures Fits(Window(list)) && |Window(list)| <= |list|
    ensures Window(list) == list[|list| - |Window(list)|..]
  {
    if list != [] && !Fits(list) {
      WindowIsFittingSuffix(list[1..]);
      assert Window(list) == Window(list[1..]);
      hide Window, Fits;
      var n := |list| - |Window(list)|;
      assert list[1..][n - 1..] == list[n..];
    }
  }

  // The window is the longest suffix within both bounds.
  lemma {:induction false} WindowIsLongest(list: seq<Retained>, k: nat)
    requires k <= |list| && Fits(list[k..])
    ensures |list| - k <= |Window(list)|
  {
    if list != [] && !Fits(list) {
      assert list[0..] == list;
      assert Window(list) == Window(list[1..]);
      assert list[1..][k - 1..] == list[k..];
      hide Fits, Window;
      WindowIsLongest(list[1..], k - 1);
    }
  }

  lemma {:induction false} BytesAppend(list: seq<Retained>, x: Retained)
    ensures Bytes(list + [x]) == Bytes(list) + x.bytes
  {
    if list == [] {
      assert [x][1..] == [];
    } else {
      BytesAppend(list[1..], x);
      assert (list + [x])[1..] == list[1..] + [x];
    }
  }

  /** What does not fit does not fit with one more either, so the window can be kept as the log grows. */
  lemma {:induction false} WindowStreams(list: seq<Retained>, x: Retained)
    ensures Window(list + [x]) == Window(Window(list) + [x])
  {
    if list != [] && !Fits(list) {
      BytesAppend(list, x);
      assert (list + [x])[1..] == list[1..] + [x];
      WindowStreams(list[1..], x);
    }
  }

  // ---- The read ----

  function EventsOf(list: seq<Retained>): (events: seq<Event>)
    ensures |events| == |list| && forall i | 0 <= i < |list| :: events[i] == list[i].event
  {
    seq(|list|, i requires 0 <= i < |list| => list[i].event)
  }

  class Snapshot {
    var events: seq<Event>
    var issues: nat
    var truncated: bool
    var bytesRead: nat

    constructor ()
      ensures events == [] && issues == 0 && !truncated && bytesRead == 0
    {
      events, issues, truncated, bytesRead := [], 0, false, 0;
    }
  }

  /** validateEvent: accepts an event, registering a definition that is new. */
  method ValidateEvent(valid: Definition -> bool, event: Event, definitions: Definitions)
    returns (ok: bool, registered: Definitions)
    ensures var verdict := Judge(valid, definitions, Line(0, false, true, Some(event)));
            && (ok <==> !verdict.Rejected?)
            && registered == if verdict.Registered? && event.payload.Defines?
                             then definitions[event.payload.definition.name := event.payload.definition] else definitions
  {
    registered := definitions;
    if !event.supported || event.recordedAt == "" {
      return false, registered;
    }
    match event.payload {
      case Defines(definition) =>
        if !valid(definition) {
          return false, registered;
        }
        if definition.name in definitions {
          return definitions[definition.name] == definition, registered;
        }
        if |definitions| >= MAX_METRICS {
          return false, registered;
        }
        registered := definitions[definition.name := definition];
      case Measures(metric, finite, run) =>
        return metric in definitions && finite && run != "", registered;
      case Reports(run, phase) =>
        return run != "" && phase != "", registered;
      case NoPayload =>
        return false, registered;
    }
    return true, registered;
  }

  /** The inner loop: what is pushed out of the list, from the front. */
  method Evict(list: seq<Retained>, bytes: nat) returns (recent: seq<Retained>, retainedBytes: nat)
    requires bytes == Bytes(list)
    ensures recent == Window(list) && retainedBytes == Bytes(recent)
  {
    recent, retainedBytes := list, bytes;
    while |recent| > MAX_VIEW_EVENTS - MAX_METRICS || retainedBytes > MAX_EVENT_BYTES
      invariant Window(recent) == Window(list) && retainedBytes == Bytes(recent)
      decreases |recent|
    {
      retainedBytes := retainedBytes - recent[0].bytes;
      recent := recent[1..];
    }
  }

  /** What the read shows after the first lines of a log. */
  ghost predicate ShowsValues(events: seq<Event>, issues: nat, truncated: bool, valid: Definition -> bool, lines: seq<Line>,
                              definitions: Definitions, recent: seq<Retained>, retainedBytes: nat)
  {
    && definitions == DefinitionsOf(valid, lines) && events == Registrations(valid, lines)
    && recent == Window(Observations(valid, lines)) && retainedBytes == Bytes(recent)
    && issues == (if Rejections(valid, lines) < MAX_VIEW_ISSUES then Rejections(valid, lines) else MAX_VIEW_ISSUES)
    && (truncated <==> Rejections(valid, lines) > MAX_VIEW_ISSUES || |recent| < |Observations(valid, lines)|)
  }

  ghost predicate Shows(snapshot: Snapshot, valid: Definition -> bool, lines: seq<Line>, definitions: Definitions,
                        recent: seq<Retained>, retainedBytes: nat)
    reads snapshot
  {
    ShowsValues(snapshot.events, snapshot.issues, snapshot.truncated, valid, lines, definitions, recent, retainedBytes)
  }

  /** The specification of a log with one more line. */
  lemma OneMoreLine(valid: Definition -> bool, before: seq<Line>, line: Line)
    ensures var all := before + [line];
            var verdict := Judge(valid, DefinitionsOf(valid, before), line);
            && DefinitionsOf(valid, all)
               == (if verdict.Registered? && verdict.event.payload.Defines?
                   then DefinitionsOf(valid, before)[verdict.event.payload.definition.name := verdict.event.payload.definition]
                   else DefinitionsOf(valid, before))
            && Registrations(valid, all) == Registrations(valid, before) + (if verdict.Registered? then [verdict.event] else [])
            && Observations(valid, all)
               == Observations(valid, before) + (if verdict.Observed? then [Retained(verdict.event, line.size)] else [])
            && Rejections(valid, all) == Rejections(valid, before) + (if verdict.Rejected? then 1 else 0)
  {
    assert (before + [line])[..|before|] == before;
  }

  /** Pushing onto the window and evicting gives the window of the longer list, cut exactly when something is lost. */
  lemma WindowPush(list: seq<Retained>, x: Retained)
    ensures Window(Window(list) + [x]) == Window(list + [x])
    ensures |Window(list + [x])| < |list + [x]| <==> |Window(list)| < |list| || |Window(list + [x])| < |Window(list)| + 1
    ensures |Window(list + [x])| <= |Window(list)| + 1 && |Window(list)| <= |list|
  {
    WindowStreams(list, x);
    WindowIsFittingSuffix(list);
    WindowIsFittingSuffix(Window(list) + [x]);
  }

  /** What one more line changes, by its verdict, when it is no observation. */
  lemma ShowsNext(events: seq<Event>, issues: nat, truncated: bool, valid: Definition -> bool, before: seq<Line>, line: Line,
                  definitions: Definitions, recent: seq<Retained>, retainedBytes: nat)
    requires ShowsValues(events, issues, truncated, valid, before, definitions, recent, retainedBytes)
    ensures var verdict, all := Judge(valid, definitions, line), before + [line];
            && (verdict.Skipped? || verdict.Repeated? ==>
                  ShowsValues(events, issues, truncated, valid, all, definitions, recent, retainedBytes))
            && (verdict.Rejected? && issues < MAX_VIEW_ISSUES ==>
                  ShowsValues(events, issues + 1, truncated, valid, all, definitions, recent, retainedBytes))
            && (verdict.Rejected? && issues >= MAX_VIEW_ISSUES ==>
                  ShowsValues(events, issues, true, valid, all, definitions, recent, retainedBytes))
            && (verdict.Registered? && verdict.event.payload.Defines? ==>
                  ShowsValues(events + [verdict.event], issues, truncated, valid, all,
                              definitions[verdict.event.payload.definition.name := verdict.event.payload.definition],
                              recent, retainedBytes))
  {
    OneMoreLine(valid, before, line);
    assert Registrations(valid, before) + [] == Registrations(valid, before);
    assert Observations(valid, before) + [] == Observations(valid, before);
    hide Judge, DefinitionsOf, Registrations, Observations, Rejections, Window, Bytes;
  }

  lemma ShowsObserved(events: seq<Event>, issues: nat, truncated: bool, valid: Definition -> bool, before: seq<Line>,
                      line: Line, definitions: Definitions, recent: seq<Retained>, retainedBytes: nat)
    requires ShowsValues(events, issues, truncated, valid, before, definitions, recent, retainedBytes)
    requires Judge(valid, definitions, line).Observed?
    ensures var pushed := recent + [Retained(Judge(valid, definitions, line).event, line.size)];
            && Bytes(pushed) == retainedBytes + line.size
            && ShowsValues(events, issues, truncated || |Window(pushed)| < |pushed|, valid, before + [line], definitions,
                           Window(pushed), Bytes(Window(pushed)))
  {
    OneMoreLine(valid, before, line);
    var observed := Retained(Judge(valid, definitions, line).event, line.size);
    WindowPush(Observations(valid, before), observed);
    BytesAppend(recent, observed);
    assert Registrations(valid, before) + [] == Registrations(valid, before);
    hide Judge, DefinitionsOf, Registrations, Observations, Rejections, Window, Bytes;
  }

  /** A line's verdict does not depend on its size, and names its event. */
  lemma VerdictShape(valid: Definition -> bool, definitions: Definitions, line: Line)
    requires !line.blank && line.terminated
    ensures var verdict := Judge(valid, definitions, line);
            && (line.decoded.None? ==> verdict == Rejected)
            && (line.decoded.Some? ==> verdict == Judge(valid, definitions, Line(0, false, true, line.decoded)))
            && !verdict.Skipped?
            && (verdict.Registered? || verdict.Observed? ==> line.decoded == Some(verdict.event))
            && (verdict.Registered? ==>
                  verdict.event.payload.Defines? && verdict.event.payload.definition.name !in definitions)
            && (verdict.Repeated? ==> line.decoded.Some? && line.decoded.value.payload.Defines?)
            && (verdict.Observed? ==> !verdict.event.payload.Defines?)
  {
  }

  /** One line of the log. */
  method ReadLine(snapshot: Snapshot, valid: Definition -> bool, line: Line, definitions: Definitions,
                  recent: seq<Retained>, retainedBytes: nat, ghost before: seq<Line>)
    returns (definitions': Definitions, recent': seq<Retained>, retainedBytes': nat)
    requires Shows(snapshot, valid, before, definitions, recent, retainedBytes)
    modifies snapshot
    ensures Shows(snapshot, valid, before + [line], definitions', recent', retainedBytes')
    ensures snapshot.bytesRead == old(snapshot.bytesRead) + line.size
  {
    definitions', recent', retainedBytes' := definitions, recent, retainedBytes;
    snapshot.bytesRead := snapshot.bytesRead + line.size;
    ShowsNext(snapshot.events, snapshot.issues, snapshot.truncated, valid, before, line, definitions, recent, retainedBytes);
    hide ShowsValues, DefinitionsOf, Registrations, Observations, Rejections, Window, Bytes;
    if line.blank || !line.terminated {
      return;
    }
    VerdictShape(valid, definitions, line);
    hide Judge;
    var ok, registered := false, definitions;
    if line.decoded.Some? {
      ok, registered := ValidateEvent(valid, line.decoded.value, definitions);
    }
    if !ok {
      if snapshot.issues < MAX_VIEW_ISSUES {
        snapshot.issues := snapshot.issues + 1;
      } else {
        snapshot.truncated := true;
      }
      return;
    }
    var event := line.decoded.value;
    definitions' := registered;
    if event.payload.Defines? {
      if |definitions'| > |definitions| {
        snapshot.events := snapshot.events + [event];
      }
      return;
    }
    ShowsObserved(snapshot.events, snapshot.issues, snapshot.truncated, valid, before, line, definitions, recent, retainedBytes);
    recent', retainedBytes' := Evict(recent + [Retained(event, line.size)], retainedBytes + line.size);
    if |recent'| < |recent| + 1 {
      snapshot.truncated := true;
    }
  }

  lemma {:induction false} RegistrationsCount(valid: Definition -> bool, lines: seq<Line>)
    ensures |Registrations(valid, lines)| == |DefinitionsOf(valid, lines)| <= MAX_METRICS
  {
    if lines != [] {
      var n := |lines| - 1;
      RegistrationsCount(valid, lines[..n]);
      OneMoreLine(valid, lines[..n], lines[n]);
      assert lines == lines[..n] + [lines[n]];
      hide DefinitionsOf, Registrations;
    }
  }

  // The definitions shown are exactly the registered ones.
  lemma {:induction false} RegistrationsAreDefinitions(valid: Definition -> bool, lines: seq<Line>, definition: Definition)
    ensures (definition.name in DefinitionsOf(valid, lines) && DefinitionsOf(valid, lines)[definition.name] == definition)
            <==> exists event :: event in Registrations(valid, lines) && event.payload == Defines(definition)
  {
    if lines != [] {
      var n := |lines| - 1;
      RegistrationsAreDefinitions(valid, lines[..n], definition);
      OneMoreLine(valid, lines[..n], lines[n]);
      assert lines == lines[..n] + [lines[n]];
      var verdict := Judge(valid, DefinitionsOf(valid, lines[..n]), lines[n]);
      assert verdict.Registered? ==> verdict.event.payload.Defines?;
      hide DefinitionsOf, Registrations;
      assert forall event ::
          (event in Registrations(valid, lines)
           <==> event in Registrations(valid, lines[..n]) || (verdict.Registered? && event == verdict.event));
    }
  }

  // Whatever the log: the snapshot shows each registered definition once, then the longest suffix of the accepted
  // observations within both bounds, at most 20000 events in all; and it is marked truncated exactly when an observation
  // or an issue was dropped.
  method ReadDashboardEvents(lines: seq<Line>, scanFailed: bool, valid: Definition -> bool, snapshot: Snapshot)
    requires snapshot.events == [] && snapshot.issues == 0 && !snapshot.truncated && snapshot.bytesRead == 0
    modifies snapshot
    ensures snapshot.events == Registrations(valid, lines) + EventsOf(Window(Observations(valid, lines)))
    ensures |snapshot.events| <= MAX_VIEW_EVENTS
    ensures snapshot.truncated <==> Window(Observations(valid, lines)) != Observations(valid, lines)
                                    || Rejections(valid, lines) > MAX_VIEW_ISSUES
    ensures snapshot.issues == (if Rejections(valid, lines) < MAX_VIEW_ISSUES then Rejections(valid, lines) else MAX_VIEW_ISSUES)
                               + (if scanFailed then 1 else 0)
  {
    var definitions: Definitions, recent: seq<Retained>, retainedBytes := map[], [], 0;
    hide *;
    ShowsNothing(snapshot, valid);
    for k := 0 to |lines|
      invariant Shows(snapshot, valid, lines[..k], definitions, recent, retainedBytes)
    {
      TakeOneMore(lines, k);
      definitions, recent, retainedBytes := ReadLine(snapshot, valid, lines[k], definitions, recent, retainedBytes, lines[..k]);
    }
    assert lines[..|lines|] == lines;
    ShowsAll(snapshot, valid, lines, definitions, recent, retainedBytes);
    if scanFailed {
      snapshot.issues := snapshot.issues + 1;
    }
    snapshot.events := snapshot.events + EventsOf(recent);
  }

  lemma ShowsNothing(snapshot: Snapshot, valid: Definition -> bool)
    requires snapshot.events == [] && snapshot.issues == 0 && !snapshot.truncated
    ensures Shows(snapshot, valid, [], map[], [], 0)
  {
  }

  /** What the read shows at the end, within its bounds. */
  lemma ShowsAll(snapshot: Snapshot, valid: Definition -> bool, lines: seq<Line>, definitions: Definitions,
                 recent: seq<Retained>, retainedBytes: nat)
    requires Shows(snapshot, valid, lines, definitions, recent, retainedBytes)
    ensures snapshot.events == Registrations(valid, lines) && recent == Window(Observations(valid, lines))
    ensures |snapshot.events| + |recent| <= MAX_VIEW_EVENTS
    ensures snapshot.truncated <==> Window(Observations(valid, lines)) != Observations(valid, lines)
                                    || Rejections(valid, lines) > MAX_VIEW_ISSUES
    ensures snapshot.issues == if Rejections(valid, lines) < MAX_VIEW_ISSUES then Rejections(valid, lines) else MAX_VIEW_ISSUES
  {
    RegistrationsCount(valid, lines);
    WindowSize(Observations(valid, lines));
    hide DefinitionsOf, Registrations, Observations, Rejections, Window, Bytes;
  }

  lemma WindowSize(list: seq<Retained>)
    ensures |Window(list)| <= MAX_VIEW_EVENTS - MAX_METRICS
    ensures |Window(list)| < |list| <==> Window(list) != list
  {
    WindowIsFittingSuffix(list);
    hide Window, Bytes;
    if |Window(list)| == |list| {
      assert list[0..] == list;
    }
  }

  lemma {:induction false} ObservedMetricsAreRegistered(valid: Definition -> bool, lines: seq<Line>)
    ensures forall retained | retained in Observations(valid, lines) && retained.event.payload.Measures? ::
              retained.event.payload.metric in DefinitionsOf(valid, lines)
  {
    if lines != [] {
      var n := |lines| - 1;
      ObservedMetricsAreRegistered(valid, lines[..n]);
      OneMoreLine(valid, lines[..n], lines[n]);
      assert lines == lines[..n] + [lines[n]];
      hide DefinitionsOf, Observations;
    }
  }

  // However much is dropped, a measurement is never shown without its definition.
  lemma ShownMeasurementsAreDefined(valid: Definition -> bool, lines: seq<Line>, retained: Retained) returns (definition: Event)
    requires retained in Window(Observations(valid, lines)) && retained.event.payload.Measures?
    ensures definition in Registrations(valid, lines) && definition.payload.Defines?
    ensures definition.payload.definition.name == retained.event.payload.metric
  {
    WindowIsFittingSuffix(Observations(valid, lines));
    assert retained in Observations(valid, lines);
    ObservedMetricsAreRegistered(valid, lines);
    var metric := retained.event.payload.metric;
    DefinitionsAreNamed(valid, lines, metric);
    RegistrationsAreDefinitions(valid, lines, DefinitionsOf(valid, lines)[metric]);
    definition :| definition in Registrations(valid, lines)
      && definition.payload == Defines(DefinitionsOf(valid, lines)[metric]);
  }

  lemma {:induction false} DefinitionsAreNamed(valid: Definition -> bool, lines: seq<Line>, name: string)
    requires name in DefinitionsOf(valid, lines)
    ensures DefinitionsOf(valid, lines)[name].name == name
  {
    var n := |lines| - 1;
    if name in DefinitionsOf(valid, lines[..n]) {
      DefinitionsAreNamed(valid, lines[..n], name);
    }
  }

  // ---- Which lines are accepted ----

  /** Line j is the first to define the metric. */
  predicate Registers(valid: Definition -> bool, lines: seq<Line>, j: nat, definition: Definition)
    requires j < |lines|
  {
    VerdictAt(valid, lines, j).Registered? && VerdictAt(valid, lines, j).event.payload == Defines(definition)
  }

  lemma DefinitionsStep(valid: Definition -> bool, lines: seq<Line>, definition: Definition)
    requires lines != []
    ensures var n := |lines| - 1;
            (definition.name in DefinitionsOf(valid, lines) && DefinitionsOf(valid, lines)[definition.name] == definition)
            <==> (definition.name in DefinitionsOf(valid, lines[..n])
                  && DefinitionsOf(valid, lines[..n])[definition.name] == definition)
                 || Registers(valid, lines, n, definition)
  {
    var n := |lines| - 1;
    OneMoreLine(valid, lines[..n], lines[n]);
    assert lines == lines[..n] + [lines[n]];
    NewNameOnly(valid, lines, n);
    hide DefinitionsOf, Judge;
  }

  lemma {:induction false} DefinitionsTold(valid: Definition -> bool, lines: seq<Line>, definition: Definition)
    ensures definition.name in DefinitionsOf(valid, lines) && DefinitionsOf(valid, lines)[definition.name] == definition
            <==> exists j :: 0 <= j < |lines| && Registers(valid, lines, j, definition)
  {
    if lines != [] {
      var n := |lines| - 1;
      DefinitionsTold(valid, lines[..n], definition);
      DefinitionsStep(valid, lines, definition);
      forall j | 0 <= j < n
        ensures Registers(valid, lines[..n], j, definition) <==> Registers(valid, lines, j, definition)
      {
        assert lines[..n][..j] == lines[..j];
      }
      hide DefinitionsOf, Registers;
      if j :| 0 <= j < n && Registers(valid, lines[..n], j, definition) {
        assert Registers(valid, lines, j, definition);
      }
    }
  }

  lemma NewNameOnly(valid: Definition -> bool, lines: seq<Line>, n: nat)
    requires n < |lines|
    ensures var verdict := VerdictAt(valid, lines, n);
            verdict.Registered? ==>
              verdict.event.payload.Defines? && verdict.event.payload.definition.name !in DefinitionsOf(valid, lines[..n])
  {
    hide DefinitionsOf;
  }

  lemma DefinedNames(valid: Definition -> bool, lines: seq<Line>, name: string)
    ensures name in DefinitionsOf(valid, lines)
            <==> exists j, definition :: 0 <= j < |lines| && Registers(valid, lines, j, definition) && definition.name == name
  {
    if name in DefinitionsOf(valid, lines) {
      DefinitionsAreNamed(valid, lines, name);
      DefinitionsTold(valid, lines, DefinitionsOf(valid, lines)[name]);
    }
    forall j, definition | 0 <= j < |lines| && Registers(valid, lines, j, definition) && definition.name == name
      ensures name in DefinitionsOf(valid, lines)
    {
      DefinitionsTold(valid, lines, definition);
    }
  }

  /** A whole line that decodes to a supported event with a time. */
  predicate Readable(line: Line) {
    !line.blank && line.terminated && line.decoded.Some? && line.decoded.value.supported && line.decoded.value.recordedAt != ""
  }

  // A line is passed over when it is blank or unterminated. Of the others, a definition is registered when it is valid, the
  // first of its name and among the first 128; a measurement is accepted when it is finite, names its run, and an earlier
  // line registered its metric; a report when it names its run and phase; and everything else is rejected.
  lemma VerdictsExactly(valid: Definition -> bool, lines: seq<Line>, k: nat)
    requires k < |lines|
    ensures var line, before, verdict := lines[k], lines[..k], VerdictAt(valid, lines, k);
            && (verdict == Skipped <==> line.blank || !line.terminated)
            && (!Readable(line) ==> verdict in {Skipped, Rejected})
            && (Readable(line) ==>
                  var event := line.decoded.value;
                  match event.payload
                  case Defines(definition) =>
                    var known := exists j, d :: 0 <= j < |before| && Registers(valid, before, j, d) && d.name == definition.name;
                    verdict == if !valid(definition) then Rejected
                               else if !known then (if |Registrations(valid, before)| < 128 then Registered(event) else Rejected)
                               else if exists j :: 0 <= j < |before| && Registers(valid, before, j, definition) then Repeated
                               else Rejected
                  case Measures(metric, finite, run) =>
                    var known := exists j, d :: 0 <= j < |before| && Registers(valid, before, j, d) && d.name == metric;
                    verdict == if finite && run != "" && known then Observed(event) else Rejected
                  case Reports(run, phase) => verdict == if run != "" && phase != "" then Observed(event) else Rejected
                  case NoPayload => verdict == Rejected)
  {
    var before := lines[..k];
    RegistrationsCount(valid, before);
    if Readable(lines[k]) {
      match lines[k].decoded.value.payload {
        case Defines(definition) =>
          DefinedNames(valid, before, definition.name);
          DefinitionsTold(valid, before, definition);
        case Measures(metric, _, _) => DefinedNames(valid, before, metric);
        case _ =>
      }
    }
    hide DefinitionsOf, Registrations, Registers;
  }

  // The window's bounds: 20000 events less the 128 that definitions may take, and 16 MiB.
  lemma FitsExactly(list: seq<Retained>)
    ensures Fits(list) <==> |list| <= 19_872 && Bytes(list) <= 16_777_216
  {
  }
}
