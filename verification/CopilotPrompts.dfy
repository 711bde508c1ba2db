/** Keyed prompt delivery under crashes and lost acknowledgements (services/copilot-adapter/handlers.go, restoration.go). */
module CopilotPrompts {
  import opened Wrappers

  datatype Delivery = Pending | Unknown | Accepted | Failed

  datatype TurnStatus = Queued | Running | Terminal

  datatype Turn<P> = Turn(prompt: P, delivery: Delivery, status: TurnStatus) {
    predicate Active() { status != Terminal }
  }

  datatype Reply = Answered | KeyReused | SessionUnavailable | SendFailed | StoreFailed

  /** Where a process's one handler of the session is; it holds the session's mutation lock between steps. */
  datatype Phase<P> =
    | Idle
    | Replaying(prompt: P)
    | Checking(prompt: P)
    | Opening(prompt: P)
    | Marking(prompt: P)
    | Rereading(prompt: P)
    | Sending(prompt: P)
    | Compensating(prompt: P)
    | Accepting(prompt: P)
    | RereadingAccepted(prompt: P)
    | Returned(prompt: P, reply: Reply)

  datatype SendOutcome = Rejected | Unresolved | Delivered

  /** One (session, idempotency key): its durable turn, the live processes, and what crossed to the bridge. */
  datatype System<P> = System(turn: Option<Turn<P>>, ended: bool, processes: map<nat, Phase<P>>, sent: seq<P>)

  datatype Action<P> =
    | Boot(process: nat, restored: bool)
    | Crash(process: nat)
    | Submit(process: nat, submission: P)
    | Replay(process: nat, ok: bool)
    | Inspect(process: nat, available: bool)
    | Open(process: nat, commit: Commit)
    | MarkUnknown(process: nat, commit: Commit)
    | Reread(process: nat, ok: bool)
    | Send(process: nat, outcome: SendOutcome)
    | Compensate(process: nat, commit: Commit)
    | MarkAccepted(process: nat, commit: Commit)
    | RereadAccepted(process: nat, ok: bool)
    | TurnStarted
    | TurnFinished
    | EndSession

  function New<P>(): System<P> {
    System(None, false, map[], [])
  }

  function Move<P>(s: System<P>, process: nat, phase: Phase<P>): System<P> {
    s.(processes := s.processes[process := phase])
  }

  function Return<P>(s: System<P>, process: nat, reply: Reply): System<P>
    requires process in s.processes && !s.processes[process].Idle?
  {
    Move(s, process, Returned(s.processes[process].prompt, reply))
  }

  /** FinalizeTurn: only a queued or running turn is closed. */
  function Finalized<P>(turn: Option<Turn<P>>): Option<Turn<P>> {
    if turn.Some? && turn.value.Active() then Some(turn.value.(status := Terminal)) else turn
  }

  /** MarkTurnDeliveryFailed: only an active turn that no one has accepted fails. */
  function DeliveryFailed<P>(turn: Option<Turn<P>>): Option<Turn<P>> {
    if turn.Some? && turn.value.Active() && turn.value.delivery in {Pending, Unknown} then
      Some(turn.value.(delivery := Failed, status := Terminal))
    else turn
  }

  /** reconcileInterruptedSession: what cannot have crossed the boundary fails, what may have is aborted. */
  function Interrupted<P>(turn: Option<Turn<P>>): Option<Turn<P>> {
    if turn.Some? && turn.value.Active() && turn.value.delivery == Pending then DeliveryFailed(turn) else Finalized(turn)
  }

  /** replayPromptSubmission, on the turn its one read returned. */
  function ReplayStep<P(==)>(s: System<P>, p: nat): System<P>
    requires p in s.processes && s.processes[p].Replaying?
  {
    var prompt := s.processes[p].prompt;
    if s.turn.None? then Move(s, p, Checking(prompt))
    else if s.turn.value.prompt != prompt then Return(s, p, KeyReused)
    else match s.turn.value.delivery
      case Accepted => Return(s, p, Answered)
      case Unknown => Return(s, p, Answered)
      case Pending => Move(s, p, Checking(prompt))
      case Failed => Return(s, p, SendFailed)
  }

  /** The submission transaction with the decisions that follow it. */
  function OpenStep<P(==)>(s: System<P>, p: nat, commit: Commit): System<P>
    requires p in s.processes && s.processes[p].Opening?
  {
    var prompt := s.processes[p].prompt;
    if s.ended then Return(s, p, if commit.Acked? then SessionUnavailable else StoreFailed)
    else if s.turn.None? then
      var after := if commit.NotCommitted? then s else s.(turn := Some(Turn(prompt, Pending, Queued)));
      if commit.Acked? then Move(after, p, Marking(prompt)) else Return(after, p, StoreFailed)
    else if s.turn.value.prompt != prompt then Return(s, p, KeyReused)
    else if !commit.Acked? then Return(s, p, StoreFailed)
    else match s.turn.value.delivery
      case Accepted => Return(s, p, Answered)
      case Pending => if s.turn.value.status.Queued? then Move(s, p, Marking(prompt)) else Return(s, p, SendFailed)
      case Unknown => Return(s, p, Answered)
      case Failed => Return(s, p, SendFailed)
  }

  /** MarkTurnDeliveryUnknown, a compare-and-set from pending; any error leads to a read. */
  function MarkStep<P>(s: System<P>, p: nat, commit: Commit): System<P>
    requires p in s.processes && s.processes[p].Marking?
  {
    var prompt := s.processes[p].prompt;
    var applied := s.turn.Some? && s.turn.value.delivery == Pending && !commit.NotCommitted?;
    var after := if applied then s.(turn := Some(s.turn.value.(delivery := Unknown))) else s;
    Move(after, p, if applied && commit.Acked? then Sending(prompt) else Rereading(prompt))
  }

  function RereadStep<P>(s: System<P>, p: nat, ok: bool): System<P>
    requires p in s.processes && s.processes[p].Rereading?
  {
    if !ok || s.turn.None? then Return(s, p, StoreFailed)
    else if s.turn.value.delivery == Accepted then Return(s, p, Answered)
    else if s.turn.value.delivery != Unknown then Return(s, p, StoreFailed)
    else Move(s, p, Sending(s.processes[p].prompt))
  }

  function SendStep<P>(s: System<P>, p: nat, outcome: SendOutcome): System<P>
    requires p in s.processes && s.processes[p].Sending?
  {
    var prompt := s.processes[p].prompt;
    var after := s.(sent := s.sent + [prompt]);
    match outcome
    case Rejected => Move(after, p, Compensating(prompt))
    case Unresolved => Return(after, p, Answered)
    case Delivered => Move(after, p, Accepting(prompt))
  }

  /** MarkTurnDeliveryAccepted from pending or unknown; any error leads to a read. */
  function AcceptStep<P>(s: System<P>, p: nat, commit: Commit): System<P>
    requires p in s.processes && s.processes[p].Accepting?
  {
    var applied := s.turn.Some? && s.turn.value.delivery in {Pending, Unknown} && !commit.NotCommitted?;
    var after := if applied then s.(turn := Some(s.turn.value.(delivery := Accepted))) else s;
    if applied && commit.Acked? then Return(after, p, Answered)
    else Move(after, p, RereadingAccepted(s.processes[p].prompt))
  }

  /** The steps of the handler that is running in a process. */
  function HandlerStep<P(==)>(s: System<P>, action: Action<P>): System<P>
    requires action.Replay? || action.Inspect? || action.Open? || action.MarkUnknown? || action.Reread? || action.Send?
             || action.Compensate? || action.MarkAccepted? || action.RereadAccepted?
    requires action.process in s.processes
  {
    var p := action.process;
    var phase := s.processes[p];
    match action
    case Replay(_, ok) =>
      if !phase.Replaying? then s else if ok then ReplayStep(s, p) else Return(s, p, StoreFailed)
    case Inspect(_, available) =>
      if !phase.Checking? then s
      else if s.ended || !available then Return(s, p, SessionUnavailable)
      else Move(s, p, Opening(phase.prompt))
    case Open(_, commit) => if phase.Opening? then OpenStep(s, p, commit) else s
    case MarkUnknown(_, commit) => if phase.Marking? then MarkStep(s, p, commit) else s
    case Reread(_, ok) => if phase.Rereading? then RereadStep(s, p, ok) else s
    case Send(_, outcome) => if phase.Sending? then SendStep(s, p, outcome) else s
    case Compensate(_, commit) =>
      if !phase.Compensating? then s
      else Return(if commit.NotCommitted? then s else s.(turn := DeliveryFailed(s.turn)), p, SendFailed)
    case MarkAccepted(_, commit) => if phase.Accepting? then AcceptStep(s, p, commit) else s
    case RereadAccepted(_, ok) =>
      if !phase.RereadingAccepted? then s
      else Return(s, p, if ok && s.turn.Some? && s.turn.value.delivery == Accepted then Answered else StoreFailed)
  }

  /** One atomic step of a process, of the bridge's events, or of the machine that crashes and restarts processes. */
  function Step<P(==)>(s: System<P>, action: Action<P>): System<P> {
    match action
    case Boot(p, restored) =>
      if p in s.processes then s
      else Move(if restored && !s.ended then s.(turn := Interrupted(s.turn)) else s, p, Idle)
    case Crash(p) => s.(processes := s.processes - {p})
    case Submit(p, prompt) =>
      if p in s.processes && (s.processes[p].Idle? || s.processes[p].Returned?) then Move(s, p, Replaying(prompt)) else s
    case TurnStarted =>
      if s.sent != [] && s.turn.Some? && s.turn.value.status.Queued? then
        s.(turn := Some(s.turn.value.(status := Running, delivery := Accepted)))
      else s
    case TurnFinished => if s.sent != [] then s.(turn := Finalized(s.turn)) else s
    case EndSession => s.(turn := Finalized(s.turn), ended := true)
    case _ => if action.process in s.processes then HandlerStep(s, action) else s
  }

  /** The state after a run of actions. */
  function Run<P(==)>(s: System<P>, actions: seq<Action<P>>): System<P> {
    if actions == [] then s else Step(Run(s, actions[..|actions| - 1]), actions[|actions| - 1])
  }

  lemma RunExtends<P>(s: System<P>, actions: seq<Action<P>>, action: Action<P>)
    ensures Run(s, actions + [action]) == Step(Run(s, actions), action)
  {
    assert (actions + [action])[..|actions|] == actions;
  }

  // ---- What every run of any number of processes keeps ----

  predicate PhaseAgrees<P(==)>(s: System<P>, phase: Phase<P>) {
    match phase
    case Marking(prompt) => s.turn.Some? && s.turn.value.prompt == prompt
    case Rereading(prompt) => s.turn.Some? && s.turn.value.prompt == prompt
    case Sending(prompt) => s.turn.Some? && s.turn.value.prompt == prompt && s.turn.value.delivery != Pending
    case Compensating(prompt) => s.sent != []
    case Accepting(prompt) => s.sent != [] && s.turn.Some? && s.turn.value.prompt == prompt
    case RereadingAccepted(prompt) => s.sent != [] && s.turn.Some? && s.turn.value.prompt == prompt
    case Returned(prompt, Answered) => s.turn.Some? && s.turn.value.prompt == prompt && s.turn.value.delivery != Pending
    case Returned(prompt, KeyReused) => s.turn.Some? && s.turn.value.prompt != prompt
    case _ => true
  }

  /** Only the persisted prompt crosses, only after the turn left pending, and only a crossed turn is accepted. */
  predicate DurableAgrees<P(==)>(s: System<P>) {
    && (s.sent != [] ==> s.turn.Some? && s.turn.value.delivery != Pending)
    && (forall x | x in s.sent :: s.turn.Some? && x == s.turn.value.prompt)
    && (s.turn.Some? && s.turn.value.delivery == Accepted ==> s.sent != [])
  }

  predicate Agrees<P(==)>(s: System<P>) {
    DurableAgrees(s) && forall p | p in s.processes :: PhaseAgrees(s, s.processes[p])
  }

  /** What one step may do to the durable side: the prompt is kept, pending is never restored, nothing is unsent. */
  predicate Forward<P(==)>(s: System<P>, t: System<P>) {
    && s.sent <= t.sent
    && (s.turn.Some? ==> t.turn.Some? && t.turn.value.prompt == s.turn.value.prompt)
    && (s.turn.Some? && s.turn.value.delivery != Pending ==> t.turn.value.delivery != Pending)
    && (s.turn.Some? && s.turn.value.delivery in {Accepted, Failed} ==> t.turn.value.delivery != Unknown)
  }

  lemma StepForward<P>(s: System<P>, action: Action<P>)
    ensures Forward(s, Step(s, action))
  {
  }

  lemma PhaseKept<P>(s: System<P>, t: System<P>, phase: Phase<P>)
    requires Forward(s, t) && PhaseAgrees(s, phase)
    ensures PhaseAgrees(t, phase)
  {
  }

  /** A step moves at most the process it names. */
  predicate Moves<P>(action: Action<P>, process: nat) {
    !action.TurnStarted? && !action.TurnFinished? && !action.EndSession? && action.process == process
  }

  lemma OthersStay<P>(s: System<P>, action: Action<P>, process: nat)
    requires process in Step(s, action).processes && !Moves(action, process)
    ensures process in s.processes && Step(s, action).processes[process] == s.processes[process]
  {
  }

  lemma MovedAgrees<P>(s: System<P>, action: Action<P>, process: nat)
    requires Agrees(s) && Moves(action, process) && process in Step(s, action).processes
    ensures PhaseAgrees(Step(s, action), Step(s, action).processes[process])
  {
    assert process in s.processes ==> PhaseAgrees(s, s.processes[process]);
  }

  lemma DurableStep<P>(s: System<P>, action: Action<P>)
    requires Agrees(s)
    ensures DurableAgrees(Step(s, action))
  {
    assert action.Send? && action.process in s.processes ==> PhaseAgrees(s, s.processes[action.process]);
  }

  lemma StepAgrees<P>(s: System<P>, action: Action<P>)
    requires Agrees(s)
    ensures Agrees(Step(s, action))
  {
    DurableStep(s, action);
    StepForward(s, action);
    hide Step, PhaseAgrees, DurableAgrees, Forward;
    var t := Step(s, action);
    forall p | p in t.processes
      ensures PhaseAgrees(t, t.processes[p])
    {
      if Moves(action, p) {
        MovedAgrees(s, action, p);
      } else {
        OthersStay(s, action, p);
        PhaseKept(s, t, s.processes[p]);
      }
    }
  }

  lemma {:induction false} RunAgrees<P>(actions: seq<Action<P>>)
    ensures Agrees(Run(New<P>(), actions))
  {
    if actions != [] {
      RunAgrees(actions[..|actions| - 1]);
      hide Agrees, Step;
      StepAgrees(Run(New<P>(), actions[..|actions| - 1]), actions[|actions| - 1]);
    }
  }

  // However many processes run, crash and restart: every prompt that crossed is the persisted one, the turn has left
  // pending by then, it is recorded as accepted only once it crossed, and an answered caller's prompt is the turn's.
  lemma DeliveryIsRecorded<P>(actions: seq<Action<P>>)
    ensures var s := Run(New<P>(), actions);
            && (s.sent != [] ==> s.turn.Some? && s.turn.value.delivery != Pending)
            && (forall x | x in s.sent :: s.turn.Some? && x == s.turn.value.prompt)
            && (s.turn.Some? && s.turn.value.delivery == Accepted ==> s.sent != [])
            && (forall p | p in s.processes && s.processes[p].Returned? ::
                  match s.processes[p].reply
                  case Answered => s.turn.Some? && s.turn.value.prompt == s.processes[p].prompt
                                   && s.turn.value.delivery != Pending
                  case KeyReused => s.turn.Some? && s.turn.value.prompt != s.processes[p].prompt
                  case _ => true)
  {
    RunAgrees(actions);
    hide Run;
    var s := Run(New<P>(), actions);
    assert forall p | p in s.processes :: PhaseAgrees(s, s.processes[p]);
  }

  // ---- At most once, with one live process at a time ----

  predicate AtMostOneProcess<P>(s: System<P>) {
    forall a, b | a in s.processes && b in s.processes :: a == b
  }

  /** Before its Send a handler knows that nothing has crossed yet. */
  predicate SentAtMostOnce<P>(s: System<P>) {
    && |s.sent| <= 1
    && (forall p | p in s.processes && (s.processes[p].Marking? || s.processes[p].Rereading? || s.processes[p].Sending?) ::
          s.sent == [])
  }

  lemma SingleStep<P>(s: System<P>, action: Action<P>)
    requires Agrees(s) && AtMostOneProcess(s) && AtMostOneProcess(Step(s, action)) && SentAtMostOnce(s)
    ensures SentAtMostOnce(Step(s, action))
  {
  }

  lemma {:induction false} DeliveredAtMostOnce<P>(actions: seq<Action<P>>)
    requires forall k | 0 <= k <= |actions| :: AtMostOneProcess(Run(New<P>(), actions[..k]))
    ensures SentAtMostOnce(Run(New<P>(), actions))
  {
    if actions != [] {
      var before := actions[..|actions| - 1];
      forall k | 0 <= k <= |before|
        ensures AtMostOneProcess(Run(New<P>(), before[..k]))
      {
        assert before[..k] == actions[..k];
      }
      DeliveredAtMostOnce(before);
      RunAgrees(before);
      assert before[..|before|] == before && actions[..|actions|] == actions;
      assert AtMostOneProcess(Run(New<P>(), actions[..|actions| - 1]));
      hide Agrees, SentAtMostOnce, Step, AtMostOneProcess;
      SingleStep(Run(New<P>(), before), actions[|actions| - 1]);
    }
  }

  // ---- What happens with several live processes ----

  /** Some handler is past the point where an unknown turn stops it. */
  predicate AtRisk<P>(s: System<P>) {
    exists p :: p in s.processes
      && (s.processes[p].Sending?
          || ((s.processes[p].Marking? || s.processes[p].Rereading?) && s.turn.Some? && s.turn.value.delivery == Unknown))
  }

  lemma SafeStep<P>(s: System<P>, action: Action<P>)
    requires Agrees(s) && s.sent != [] && !AtRisk(s)
    ensures !AtRisk(Step(s, action)) && Step(s, action).sent == s.sent
  {
    StepForward(s, action);
  }

  lemma {:induction false} SafeForever<P>(s: System<P>, rest: seq<Action<P>>)
    requires Agrees(s) && s.sent != [] && !AtRisk(s)
    ensures !AtRisk(Run(s, rest)) && Run(s, rest).sent == s.sent && Agrees(Run(s, rest))
  {
    if rest != [] {
      SafeForever(s, rest[..|rest| - 1]);
      hide Agrees, AtRisk, Step;
      SafeStep(Run(s, rest[..|rest| - 1]), rest[|rest| - 1]);
      StepAgrees(Run(s, rest[..|rest| - 1]), rest[|rest| - 1]);
    }
  }

  /** A run of two parts is the run of the second from where the first ends. */
  lemma {:induction false} RunConcatenates<P>(s: System<P>, actions: seq<Action<P>>, script: seq<Action<P>>)
    ensures Run(s, actions + script) == Run(Run(s, actions), script)
  {
    if script == [] {
      assert actions + script == actions;
    } else {
      var shorter := script[..|script| - 1];
      RunConcatenates(s, actions, shorter);
      assert actions + script == (actions + shorter) + [script[|script| - 1]];
      RunExtends(s, actions + shorter, script[|script| - 1]);
    }
  }

  lemma SenderSends<P>(s: System<P>, p: nat) returns (rest: seq<Action<P>>)
    requires p in s.processes && s.processes[p].Sending?
    ensures |Run(s, rest).sent| == |s.sent| + 1
  {
    rest := [Send(p, Unresolved)];
    assert Run(s, rest[..0]) == s;
  }

  lemma RereaderSends<P>(s: System<P>, p: nat) returns (rest: seq<Action<P>>)
    requires p in s.processes && s.processes[p].Rereading? && s.turn.Some? && s.turn.value.delivery == Unknown
    ensures |Run(s, rest).sent| == |s.sent| + 1
  {
    var first := [Reread(p, true)];
    assert Run(s, first[..0]) == s;
    assert Run(s, first) == Move(s, p, Sending(s.processes[p].prompt));
    hide Step;
    rest := SenderSends(Run(s, first), p);
    RunConcatenates(s, first, rest);
    rest := first + rest;
  }

  /** A handler at risk goes on to send when its next steps meet no error. */
  lemma RiskIsRealized<P>(s: System<P>) returns (rest: seq<Action<P>>)
    requires AtRisk(s)
    ensures |Run(s, rest).sent| == |s.sent| + 1
  {
    var p :| p in s.processes
      && (s.processes[p].Sending?
          || ((s.processes[p].Marking? || s.processes[p].Rereading?) && s.turn.Some? && s.turn.value.delivery == Unknown));
    hide AtRisk;
    match s.processes[p] {
      case Sending(_) => rest := SenderSends(s, p);
      case Rereading(_) => rest := RereaderSends(s, p);
      case Marking(prompt) =>
        var first := [MarkUnknown(p, Acked)];
        assert Run(s, first[..0]) == s;
        assert Run(s, first) == Move(s, p, Rereading(prompt));
        hide Step;
        rest := RereaderSends(Run(s, first), p);
        RunConcatenates(s, first, rest);
        rest := first + rest;
    }
  }

  // Once a prompt crossed, it can cross again if and only if another handler is already past its opening transaction:
  // sending, or marking or re-reading while the turn is unknown, since the re-read cannot tell whose mark it sees.
  lemma RepeatExactly<P>(actions: seq<Action<P>>)
    requires Run(New<P>(), actions).sent != []
    ensures var s := Run(New<P>(), actions);
            AtRisk(s) <==> exists rest: seq<Action<P>> :: |Run(s, rest).sent| > |s.sent|
  {
    var s := Run(New<P>(), actions);
    RunAgrees(actions);
    hide Agrees, AtRisk, Run;
    if AtRisk(s) {
      var rest := RiskIsRealized(s);
      assert |Run(s, rest).sent| > |s.sent|;
    } else {
      forall rest: seq<Action<P>>
        ensures |Run(s, rest).sent| == |s.sent|
      {
        SafeForever(s, rest);
      }
    }
  }

  /** One process brings the submission up to its opening transaction. */
  lemma ReachesOpening<P>(s: System<P>, p: nat, prompt: P) returns (script: seq<Action<P>>)
    requires p in s.processes && s.processes[p].Idle? && !s.ended && s.turn.None?
    ensures Run(s, script) == Move(s, p, Opening(prompt))
  {
    script := [Submit(p, prompt), Replay(p, true), Inspect(p, true)];
    assert script[..2] == [Submit(p, prompt), Replay(p, true)] && script[..1] == [Submit(p, prompt)] && script[..0] == [];
    assert Run(s, script[..0]) == s;
    assert Run(s, script[..1]) == Move(s, p, Replaying(prompt)) by { RunExtends(s, [], script[0]); }
    assert Run(s, script[..2]) == Move(s, p, Checking(prompt)) by { RunExtends(s, script[..1], script[1]); }
    RunExtends(s, script[..2], script[2]);
  }

  /** Two live processes that both opened the turn while it was pending, after which the first marked it and sent. */
  lemma TwoProcessesReachRisk<P>(prompt: P) returns (script: seq<Action<P>>)
    ensures var s := Run(System(None, false, map[0 := Opening(prompt), 1 := Opening(prompt)], []), script);
            s.sent == [prompt] && AtRisk(s)
  {
    var s := System(None, false, map[0 := Opening(prompt), 1 := Opening(prompt)], []);
    var shared := s.(turn := Some(Turn(prompt, Pending, Queued)));
    var one := Move(shared, 0, Marking(prompt));
    var both := Move(one, 1, Marking(prompt));
    var marked := Move(both.(turn := Some(Turn(prompt, Unknown, Queued))), 0, Sending(prompt));
    assert Step(s, Open(0, Acked)) == one;
    assert Step(one, Open(1, Acked)) == both;
    assert Step(both, MarkUnknown(0, Acked)) == marked;
    var sent := Step(marked, Send(0, Delivered));
    assert sent.sent == [prompt] && sent.processes[1] == Marking(prompt) && sent.turn.value.delivery == Unknown;
    assert Run(s, []) == s;
    hide Step, Run;
    RunExtends(s, [], Open(0, Acked));
    RunExtends(s, [] + [Open(0, Acked)], Open(1, Acked));
    RunExtends(s, [] + [Open(0, Acked)] + [Open(1, Acked)], MarkUnknown(0, Acked));
    script := [] + [Open(0, Acked)] + [Open(1, Acked)] + [MarkUnknown(0, Acked)];
    RunExtends(s, script, Send(0, Delivered));
    script := script + [Send(0, Delivered)];
  }

  // The failed mark of the second process reads unknown and sends again: the single live process of
  // DeliveredAtMostOnce is needed.
  lemma TwoProcessesCanSendTwice<P>(prompt: P) returns (actions: seq<Action<P>>)
    ensures |Run(New<P>(), actions).sent| == 2
  {
    var booted := System(None, false, map[0 := Idle, 1 := Idle], []);
    actions := [Boot(0, true), Boot(1, true)];
    assert actions[..1] == [Boot(0, true)] && actions[..1][..0] == [];
    assert Run(New<P>(), actions) == booted;
    var first := ReachesOpening(booted, 0, prompt);
    RunConcatenates(New<P>(), actions, first);
    actions := actions + first;
    var second := ReachesOpening(Move(booted, 0, Opening(prompt)), 1, prompt);
    RunConcatenates(New<P>(), actions, second);
    actions := actions + second;
    hide Step, Run, AtRisk;
    assert Run(New<P>(), actions) == System(None, false, map[0 := Opening(prompt), 1 := Opening(prompt)], []);
    var third := TwoProcessesReachRisk(prompt);
    RunConcatenates(New<P>(), actions, third);
    actions := actions + third;
    RunAgrees(actions);
    var rest := RiskIsRealized(Run(New<P>(), actions));
    RunConcatenates(New<P>(), actions, rest);
    actions := actions + rest;
  }
}
