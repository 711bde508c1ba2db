/** SDK session creation under crashes and lost acknowledgements (services/copilot-adapter/handlers.go, restoration.go). */
module CopilotCreation {
  import opened Wrappers

  /** The session row: absent, starting, any of the statuses between, or one of the two terminal ones. */
  datatype Status = Missing | Starting | Live | Ended | Failed

  datatype Receipt<R> = Receipt(request: R, attempt: Option<nat>, completed: bool)

  datatype Reply = Answer(status: Status) | KeyReused | StoreFailed | ActivationFailed | InconsistentPhases

  datatype Purpose = ToComplete | ToFail

  /** Where a handler is inside createSessionUnderWorktreeFence, holding its own copy of the receipt. */
  datatype Stage =
    | Checking
    | Ensuring
    | Inserting
    | InsertRereading
    | Activating
    | Beginning
    | BeginRereading(token: nat)
    | Creating(token: nat)
    | ResumingCreated
    | Resuming
    | Completing
    | Failing
    | ReconcilingRow(purpose: Purpose)
    | ReconcilingReceipt(purpose: Purpose, row: Status)

  datatype Phase<R> =
    | Idle
    | Claiming(request: R)
    | ClaimRereading(request: R)
    | RestoringReceipt
    | Working(stage: Stage, receipt: Receipt<R>)
    | Returned(reply: Reply)

  /** A live process: its one handler of this creation, and whether it retains a bridge handle for the session. */
  datatype Process<R> = Process(phase: Phase<R>, handle: bool)

  datatype CreateOutcome = Created | CreatedWithError | NotCreated

  datatype ResumeOutcome = Resumed | ResumeMissing | ResumeFailed

  /** One idempotency key: its receipt, its session row, the SDK's side, the tokens drawn, and the live processes. */
  datatype System<R> = System(receipt: Option<Receipt<R>>, status: Status, sdkExists: bool, creates: seq<nat>,
                              tokens: set<nat>, processes: map<nat, Process<R>>)

  datatype Action<R> =
    | Boot(process: nat)
    | Crash(process: nat)
    | Request(process: nat, submission: R)
    | RestoreStarting(process: nat)
    | AttachLive(process: nat)
    | Quarantine(process: nat, commit: Commit)
    | EndSession(process: nat)
    | BridgeFailed(process: nat)
    | ForgetSdkSession
    | Claim(process: nat, commit: Commit)
    | Read(process: nat, ok: bool)
    | Insert(process: nat, commit: Commit)
    | Activate(process: nat)
    | Begin(process: nat, drawn: nat, commit: Commit)
    | Create(process: nat, created: CreateOutcome)
    | Resume(process: nat, resumed: ResumeOutcome)
    | Complete(process: nat, commit: Commit)
    | Fail(process: nat, commit: Commit)

  function New<R>(): System<R> {
    System(None, Missing, false, [], {}, map[])
  }

  function Move<R>(s: System<R>, p: nat, phase: Phase<R>): System<R>
    requires p in s.processes
  {
    s.(processes := s.processes[p := s.processes[p].(phase := phase)])
  }

  function Return<R>(s: System<R>, p: nat, reply: Reply): System<R>
    requires p in s.processes
  {
    Move(s, p, Returned(reply))
  }

  /** retainBridgeSession, on the way out. */
  function Retain<R>(s: System<R>, p: nat, reply: Reply): System<R>
    requires p in s.processes
  {
    s.(processes := s.processes[p := Process(Returned(reply), true)])
  }

  /** claimSessionCreation's insert; a conflict or any error is resolved by reading the receipt. */
  function ClaimStep<R>(s: System<R>, p: nat, request: R, commit: Commit): System<R>
    requires p in s.processes
  {
    var receipt := Receipt(request, None, false);
    if s.receipt.Some? || commit.NotCommitted? then Move(s, p, ClaimRereading(request))
    else if commit.AckLost? then Move(s.(receipt := Some(receipt)), p, ClaimRereading(request))
    else Move(s.(receipt := Some(receipt)), p, Working(Checking, receipt))
  }

  /** The reads, by the place in the code that issues them. */
  function ReadStep<R(==)>(s: System<R>, p: nat): System<R>
    requires p in s.processes
  {
    match s.processes[p].phase
    case ClaimRereading(request) =>
      if s.receipt.None? then Return(s, p, StoreFailed)
      else if s.receipt.value.request != request then Return(s, p, KeyReused)
      else Move(s, p, Working(Checking, s.receipt.value))
    case RestoringReceipt =>
      if s.receipt.None? then Return(s, p, StoreFailed) else Move(s, p, Working(Activating, s.receipt.value))
    case Working(Checking, receipt) =>
      if s.status != Missing && (receipt.completed || s.status != Starting) then Return(s, p, Answer(s.status))
      else Move(s, p, Working(Ensuring, receipt))
    case Working(Ensuring, receipt) =>
      if s.status == Missing then Move(s, p, Working(Inserting, receipt)) else RowFound(s, p, receipt)
    case Working(InsertRereading, receipt) =>
      if s.status == Missing then Return(s, p, StoreFailed) else RowFound(s, p, receipt)
    case Working(BeginRereading(token), receipt) =>
      if s.receipt.None? || s.receipt.value.attempt.None? then Return(s, p, ActivationFailed)
      else Move(s, p, Working(Owner(token, s.receipt.value.attempt.value), s.receipt.value))
    case Working(ReconcilingRow(purpose), receipt) => ReadRow(s, p, purpose, receipt)
    case Working(ReconcilingReceipt(purpose, row), receipt) => ReadReceipt(s, p, purpose, row)
    case _ => s
  }

  /** reconcileStartingSession's first read. */
  function ReadRow<R>(s: System<R>, p: nat, purpose: Purpose, receipt: Receipt<R>): System<R>
    requires p in s.processes
  {
    if s.status == Missing then GiveUp(s, p, purpose, ActivationFailed)
    else Move(s, p, Working(ReconcilingReceipt(purpose, s.status), receipt))
  }

  /** reconcileStartingSession's second read. */
  function ReadReceipt<R>(s: System<R>, p: nat, purpose: Purpose, row: Status): System<R>
    requires p in s.processes
  {
    if s.receipt.None? then GiveUp(s, p, purpose, ActivationFailed)
    else Reconciled(s, p, purpose, row, s.receipt.value.completed)
  }

  /** A read that fails ends the handler, except where nothing is read. */
  function ReadFailure<R>(s: System<R>, p: nat, stage: Stage): System<R>
    requires p in s.processes
  {
    match stage
    case Checking => Return(s, p, StoreFailed)
    case Ensuring => Return(s, p, StoreFailed)
    case InsertRereading => Return(s, p, StoreFailed)
    case BeginRereading(_) => Return(s, p, ActivationFailed)
    case ReconcilingRow(purpose) => GiveUp(s, p, purpose, ActivationFailed)
    case ReconcilingReceipt(purpose, _) => GiveUp(s, p, purpose, ActivationFailed)
    case _ => s
  }

  /** activateStartingSession returns a row that is no longer starting as it is. */
  function RowFound<R>(s: System<R>, p: nat, receipt: Receipt<R>): System<R>
    requires p in s.processes
  {
    if s.status == Starting then Move(s, p, Working(Activating, receipt)) else Return(s, p, Answer(s.status))
  }

  /** Only the exact persisted token owns CreateSession. */
  function Owner(token: nat, attempt: nat): Stage {
    if attempt == token then Creating(token) else Resuming
  }

  function GiveUp<R>(s: System<R>, p: nat, purpose: Purpose, reply: Reply): System<R>
    requires p in s.processes
  {
    if purpose == ToComplete then Retain(s, p, reply) else Return(s, p, reply)
  }

  /** reconcileStartingSession's verdict on its two reads, and what its two callers do with it. */
  function Reconciled<R>(s: System<R>, p: nat, purpose: Purpose, row: Status, completed: bool): System<R>
    requires p in s.processes
  {
    if (row == Starting) == completed then GiveUp(s, p, purpose, InconsistentPhases)
    else if !completed then GiveUp(s, p, purpose, ActivationFailed)
    else if purpose == ToFail then Return(s, p, if row == Status.Failed then Answer(row) else ActivationFailed)
    else if row == Status.Failed || row == Ended then Return(s, p, Answer(row))
    else Retain(s, p, Answer(row))
  }

  /** The transaction that creates the starting row. */
  function InsertStep<R>(s: System<R>, p: nat, receipt: Receipt<R>, commit: Commit): System<R>
    requires p in s.processes
  {
    var applied := s.status == Missing && !commit.NotCommitted?;
    var after := if applied then s.(status := Starting) else s;
    Move(after, p, Working(if applied && commit.Acked? then Activating else InsertRereading, receipt))
  }

  /** The lookup of a retained handle, then of an attempt that the receipt copy already names. */
  function ActivateStep<R>(s: System<R>, p: nat, receipt: Receipt<R>): System<R>
    requires p in s.processes
  {
    Move(s, p, Working(if s.processes[p].handle then Completing else if receipt.attempt.None? then Beginning else Resuming,
                       receipt))
  }

  /** BeginSessionCreationSDKAttempt, a compare-and-set from no attempt. */
  function BeginStep<R>(s: System<R>, p: nat, receipt: Receipt<R>, token: nat, commit: Commit): System<R>
    requires p in s.processes && s.receipt.Some?
  {
    var drawn := s.(tokens := s.tokens + {token});
    if s.receipt.value.attempt.Some? || commit.NotCommitted? then Move(drawn, p, Working(BeginRereading(token), receipt))
    else
      var persisted := s.receipt.value.(attempt := Some(token));
      var after := drawn.(receipt := Some(persisted));
      if commit.Acked? then Move(after, p, Working(Creating(token), persisted))
      else Move(after, p, Working(BeginRereading(token), receipt))
  }

  function CreateStep<R>(s: System<R>, p: nat, receipt: Receipt<R>, token: nat, outcome: CreateOutcome): System<R>
    requires p in s.processes
  {
    var after := s.(creates := s.creates + [token], sdkExists := s.sdkExists || outcome != NotCreated);
    Move(after, p, Working(if outcome == Created then Completing else ResumingCreated, receipt))
  }

  function ResumeStep<R>(s: System<R>, p: nat, receipt: Receipt<R>, outcome: ResumeOutcome): System<R>
    requires p in s.processes
  {
    match outcome
    case Resumed => if s.sdkExists then Move(s, p, Working(Completing, receipt)) else s
    case ResumeMissing => if s.sdkExists then s else Move(s, p, Working(Failing, receipt))
    case ResumeFailed => Return(s, p, ActivationFailed)
  }

  /** completeStartingSession and failStartingSession: the row leaves starting and the receipt completes, in one commit. */
  function Settle<R>(s: System<R>, receipt: Receipt<R>, status: Status, commit: Commit): System<R> {
    if s.status == Starting && s.receipt.Some? && s.receipt.value.attempt == receipt.attempt && !commit.NotCommitted? then
      s.(status := status, receipt := Some(s.receipt.value.(completed := true)))
    else s
  }

  function CompleteStep<R(==)>(s: System<R>, p: nat, receipt: Receipt<R>, commit: Commit): System<R>
    requires p in s.processes
  {
    var after := if receipt.attempt.None? then s else Settle(s, receipt, Live, commit);
    if after != s && commit.Acked? then Retain(after, p, Answer(Live))
    else Move(after, p, Working(ReconcilingRow(ToComplete), receipt))
  }

  function FailStep<R(==)>(s: System<R>, p: nat, receipt: Receipt<R>, commit: Commit): System<R>
    requires p in s.processes
  {
    if receipt.attempt.None? then Return(s, p, ActivationFailed)
    else
      var after := Settle(s, receipt, Status.Failed, commit);
      if after != s && commit.Acked? then Return(after, p, Answer(Status.Failed))
      else Move(after, p, Working(ReconcilingRow(ToFail), receipt))
  }

  /** The steps of the handler that is running in a process. */
  function HandlerStep<R(==)>(s: System<R>, action: Action<R>): System<R>
    requires action.Claim? || action.Read? || action.Insert? || action.Activate? || action.Begin? || action.Create?
             || action.Resume? || action.Complete? || action.Fail?
    requires action.process in s.processes
  {
    var p := action.process;
    var phase := s.processes[p].phase;
    match action
    case Claim(_, commit) => if phase.Claiming? then ClaimStep(s, p, phase.request, commit) else s
    case Read(_, ok) =>
      if ok then ReadStep(s, p)
      else if phase.ClaimRereading? || phase.RestoringReceipt? then Return(s, p, StoreFailed)
      else if phase.Working? then ReadFailure(s, p, phase.stage) else s
    case Insert(_, commit) =>
      if phase.Working? && phase.stage == Inserting then InsertStep(s, p, phase.receipt, commit) else s
    case Activate(_) => if phase.Working? && phase.stage == Activating then ActivateStep(s, p, phase.receipt) else s
    case Begin(_, drawn, commit) =>
      if phase.Working? && phase.stage == Beginning && s.receipt.Some? && drawn !in s.tokens then
        BeginStep(s, p, phase.receipt, drawn, commit)
      else s
    case Create(_, created) =>
      if phase.Working? && phase.stage.Creating? then CreateStep(s, p, phase.receipt, phase.stage.token, created) else s
    case Resume(_, resumed) =>
      if phase.Working? && (phase.stage == Resuming || phase.stage == ResumingCreated) then
        ResumeStep(s, p, phase.receipt, resumed)
      else s
    case Complete(_, commit) =>
      if phase.Working? && phase.stage == Completing then CompleteStep(s, p, phase.receipt, commit) else s
    case Fail(_, commit) =>
      if phase.Working? && phase.stage == Failing then FailStep(s, p, phase.receipt, commit) else s
  }

  /** The session's lock is free in a process whose handler is not running. */
  predicate Unlocked<R>(s: System<R>, p: nat) {
    p in s.processes && (s.processes[p].phase.Idle? || s.processes[p].phase.Returned?)
  }

  /** What other operations of a live process do to the session, under the same lock. */
  function SessionStep<R>(s: System<R>, action: Action<R>): System<R>
    requires action.AttachLive? || action.Quarantine? || action.EndSession? || action.BridgeFailed?
    requires Unlocked(s, action.process)
  {
    var p := action.process;
    match action
    case AttachLive(_) => if s.status == Live then s.(processes := s.processes[p := Process(Idle, true)]) else s
    case Quarantine(_, commit) =>
      if commit.NotCommitted? || s.status == Missing || s.receipt.None? then s
      else s.(status := if s.status == Ended then Ended else Status.Failed,
              receipt := Some(s.receipt.value.(completed := true)),
              processes := s.processes[p := s.processes[p].(handle := false)])
    case EndSession(_) =>
      if s.status == Live then s.(status := Ended, processes := s.processes[p := s.processes[p].(handle := false)]) else s
    case BridgeFailed(_) => if s.processes[p].handle && s.status == Live then s.(status := Status.Failed) else s
  }

  function Step<R(==)>(s: System<R>, action: Action<R>): System<R> {
    match action
    case Boot(p) => if p in s.processes then s else s.(processes := s.processes[p := Process(Idle, false)])
    case Crash(p) => s.(processes := s.processes - {p})
    case ForgetSdkSession => s.(sdkExists := false)
    case Request(p, request) => if Unlocked(s, p) then Move(s, p, Claiming(request)) else s
    case RestoreStarting(p) => if Unlocked(s, p) && s.status == Starting then Move(s, p, RestoringReceipt) else s
    case AttachLive(p) => if Unlocked(s, p) then SessionStep(s, action) else s
    case Quarantine(p, _) => if Unlocked(s, p) then SessionStep(s, action) else s
    case EndSession(p) => if Unlocked(s, p) then SessionStep(s, action) else s
    case BridgeFailed(p) => if Unlocked(s, p) then SessionStep(s, action) else s
    case _ => if action.process in s.processes then HandlerStep(s, action) else s
  }

  function Run<R(==)>(s: System<R>, actions: seq<Action<R>>): System<R> {
    if actions == [] then s else Step(Run(s, actions[..|actions| - 1]), actions[|actions| - 1])
  }

  // ---- What every run of any number of processes keeps ----

  /** A receipt copy is the persisted receipt of some earlier time. */
  predicate CopyAgrees<R(==)>(s: System<R>, copy: Receipt<R>) {
    && s.receipt.Some? && copy.request == s.receipt.value.request
    && (copy.attempt.Some? ==> s.receipt.value.attempt == copy.attempt)
    && (copy.completed ==> s.receipt.value.completed)
  }

  predicate StageAgrees<R(==)>(s: System<R>, process: Process<R>, stage: Stage, copy: Receipt<R>) {
    && CopyAgrees(s, copy)
    && (stage.BeginRereading? || stage.Creating? ==> stage.token in s.tokens && stage.token !in s.creates)
    && (stage.Creating? ==> copy.attempt == Some(stage.token))
    && (stage == Inserting || stage == InsertRereading || stage == Checking || stage == Ensuring || stage == Activating
        || stage == Beginning || stage.BeginRereading? || copy.attempt.Some?)
    && (process.handle ==> copy.attempt.Some?)
    && (!stage.Checking? && !stage.Ensuring? && !stage.Inserting? && !stage.InsertRereading? ==> s.status != Missing)
    && (stage.ReconcilingReceipt? ==> stage.row != Missing && (stage.row != Starting ==> s.status != Starting))
  }

  predicate ProcessAgrees<R(==)>(s: System<R>, process: Process<R>) {
    && (process.handle ==> s.receipt.Some? && s.receipt.value.attempt.Some?)
    && (process.phase.Working? ==> StageAgrees(s, process, process.phase.stage, process.phase.receipt))
    && (process.phase.RestoringReceipt? ==> s.status != Missing)
    && (process.phase.Returned? && process.phase.reply.Answer? ==>
          process.phase.reply.status !in {Missing, Starting} && s.status !in {Missing, Starting})
  }

  /** The row is starting exactly while its receipt is incomplete, and every CreateSession was the attempt's owner's. */
  predicate DurableAgrees<R(==)>(s: System<R>) {
    && (s.status != Missing ==> s.receipt.Some? && (s.status == Starting <==> !s.receipt.value.completed))
    && (s.status == Missing && s.receipt.Some? ==> !s.receipt.value.completed)
    && (s.status == Live ==> s.receipt.value.attempt.Some?)
    && (s.creates != [] ==> s.receipt.Some? && s.receipt.value.attempt.Some? && s.creates == [s.receipt.value.attempt.value])
    && (s.receipt.Some? && s.receipt.value.attempt.Some? ==> s.receipt.value.attempt.value in s.tokens)
  }

  function Token<R>(process: Process<R>): Option<nat> {
    if process.phase.Working? && (process.phase.stage.BeginRereading? || process.phase.stage.Creating?) then
      Some(process.phase.stage.token)
    else None
  }

  predicate TokensDiffer<R>(s: System<R>) {
    forall p, q | p in s.processes && q in s.processes && p != q && Token(s.processes[p]).Some? ::
      Token(s.processes[p]) != Token(s.processes[q])
  }

  predicate Agrees<R(==)>(s: System<R>) {
    DurableAgrees(s) && TokensDiffer(s) && forall p | p in s.processes :: ProcessAgrees(s, s.processes[p])
  }

  /** What one step may do to the durable side: nothing is undone. */
  predicate Forward<R(==)>(s: System<R>, t: System<R>) {
    && s.tokens <= t.tokens && s.creates <= t.creates
    && (s.receipt.Some? ==>
          t.receipt.Some? && t.receipt.value.request == s.receipt.value.request
          && (s.receipt.value.attempt.Some? ==> t.receipt.value.attempt == s.receipt.value.attempt)
          && (s.receipt.value.completed ==> t.receipt.value.completed))
    && (s.status != Missing ==> t.status != Missing)
    && (s.status !in {Missing, Starting} ==> t.status !in {Missing, Starting})
  }

  lemma ReadForward<R>(s: System<R>, p: nat, stage: Stage)
    requires p in s.processes
    ensures Forward(s, ReadStep(s, p)) && Forward(s, ReadFailure(s, p, stage))
  {
  }

  lemma SettleForward<R>(s: System<R>, p: nat, receipt: Receipt<R>, commit: Commit)
    requires p in s.processes
    ensures Forward(s, CompleteStep(s, p, receipt, commit)) && Forward(s, FailStep(s, p, receipt, commit))
  {
  }

  lemma WriteForward<R>(s: System<R>, action: Action<R>)
    requires action.Claim? || action.Insert? || action.Begin? || action.Complete? || action.Fail?
    requires action.process in s.processes
    ensures Forward(s, HandlerStep(s, action))
  {
    var phase := s.processes[action.process].phase;
    if phase.Working? && (action.Complete? || action.Fail?) {
      SettleForward(s, action.process, phase.receipt, action.commit);
    }
    hide CompleteStep, FailStep;
  }

  lemma HandlerForward<R>(s: System<R>, action: Action<R>)
    requires action.Claim? || action.Read? || action.Insert? || action.Activate? || action.Begin? || action.Create?
             || action.Resume? || action.Complete? || action.Fail?
    requires action.process in s.processes
    ensures Forward(s, HandlerStep(s, action))
  {
    if action.Read? || action.Activate? || action.Create? || action.Resume? {
      var phase := s.processes[action.process].phase;
      ReadForward(s, action.process, if phase.Working? then phase.stage else Checking);
      hide ReadStep, ReadFailure;
    } else {
      WriteForward(s, action);
      hide HandlerStep;
    }
  }

  lemma StepForward<R>(s: System<R>, action: Action<R>)
    ensures Forward(s, Step(s, action))
  {
    match action {
      case Boot(_) =>
      case Crash(_) =>
      case ForgetSdkSession =>
      case _ =>
        if action.process in s.processes && !action.Request? && !action.RestoreStarting? && !action.AttachLive?
           && !action.Quarantine? && !action.EndSession? && !action.BridgeFailed? {
          HandlerForward(s, action);
          hide HandlerStep;
        }
    }
  }

  /** A step moves at most the process it names. */
  predicate Moves<R>(action: Action<R>, process: nat) {
    !action.ForgetSdkSession? && action.process == process
  }

  predicate OnlyMoves<R(==)>(s: System<R>, t: System<R>, p: nat) {
    && t.processes.Keys == s.processes.Keys
    && forall q | q in s.processes && q != p :: t.processes[q] == s.processes[q]
  }

  lemma ReadMovesOne<R>(s: System<R>, p: nat, stage: Stage)
    requires p in s.processes
    ensures OnlyMoves(s, ReadStep(s, p), p) && OnlyMoves(s, ReadFailure(s, p, stage), p)
  {
  }

  lemma SettleMovesOne<R>(s: System<R>, p: nat, receipt: Receipt<R>, commit: Commit)
    requires p in s.processes
    ensures OnlyMoves(s, CompleteStep(s, p, receipt, commit), p) && OnlyMoves(s, FailStep(s, p, receipt, commit), p)
  {
  }

  lemma ClaimMovesOne<R>(s: System<R>, p: nat, request: R, commit: Commit)
    requires p in s.processes
    ensures OnlyMoves(s, ClaimStep(s, p, request, commit), p)
  {
  }

  lemma BeginMovesOne<R>(s: System<R>, p: nat, receipt: Receipt<R>, token: nat, commit: Commit)
    requires p in s.processes && s.receipt.Some?
    ensures OnlyMoves(s, BeginStep(s, p, receipt, token, commit), p)
  {
  }

  lemma WriteMovesOne<R>(s: System<R>, action: Action<R>)
    requires action.Claim? || action.Insert? || action.Begin? || action.Complete? || action.Fail?
    requires action.process in s.processes
    ensures OnlyMoves(s, HandlerStep(s, action), action.process)
  {
    var phase := s.processes[action.process].phase;
    if phase.Working? && (action.Complete? || action.Fail?) {
      SettleMovesOne(s, action.process, phase.receipt, action.commit);
    }
    if phase.Claiming? && action.Claim? { ClaimMovesOne(s, action.process, phase.request, action.commit); }
    if phase.Working? && action.Begin? && s.receipt.Some? {
      BeginMovesOne(s, action.process, phase.receipt, action.drawn, action.commit);
    }
    hide CompleteStep, FailStep, ClaimStep, BeginStep;
  }

  lemma HandlerMovesOne<R>(s: System<R>, action: Action<R>)
    requires action.Claim? || action.Read? || action.Insert? || action.Activate? || action.Begin? || action.Create?
             || action.Resume? || action.Complete? || action.Fail?
    requires action.process in s.processes
    ensures OnlyMoves(s, HandlerStep(s, action), action.process)
  {
    if action.Read? || action.Activate? || action.Create? || action.Resume? {
      var phase := s.processes[action.process].phase;
      ReadMovesOne(s, action.process, if phase.Working? then phase.stage else Checking);
      hide ReadStep, ReadFailure;
    } else {
      WriteMovesOne(s, action);
      hide HandlerStep;
    }
  }

  lemma OthersStay<R>(s: System<R>, action: Action<R>, process: nat)
    requires process in Step(s, action).processes && !Moves(action, process)
    ensures process in s.processes && Step(s, action).processes[process] == s.processes[process]
  {
    if !action.ForgetSdkSession? && action.process in s.processes && !action.Boot? && !action.Crash? && !action.Request?
       && !action.RestoreStarting? && !action.AttachLive? && !action.Quarantine? && !action.EndSession?
       && !action.BridgeFailed? {
      HandlerMovesOne(s, action);
      hide HandlerStep;
    }
  }

  /** Only the Create step of a handler that owns its token adds to the calls, and it leaves that stage. */
  lemma CreatesGrow<R>(s: System<R>, action: Action<R>)
    ensures Step(s, action).creates == s.creates
            || (action.Create? && action.process in s.processes && s.processes[action.process].phase.Working?
                && s.processes[action.process].phase.stage.Creating?
                && Step(s, action).creates == s.creates + [s.processes[action.process].phase.stage.token]
                && action.process in Step(s, action).processes && Token(Step(s, action).processes[action.process]).None?)
  {
  }

  lemma ProcessKept<R>(s: System<R>, t: System<R>, process: Process<R>)
    requires Forward(s, t) && ProcessAgrees(s, process)
    requires Token(process).Some? && Token(process).value in t.creates ==> Token(process).value in s.creates
    ensures ProcessAgrees(t, process)
  {
  }

  predicate Before<R(==)>(s: System<R>, p: nat) {
    DurableAgrees(s) && p in s.processes && ProcessAgrees(s, s.processes[p])
  }

  predicate After<R(==)>(t: System<R>, p: nat) {
    DurableAgrees(t) && (p in t.processes ==> ProcessAgrees(t, t.processes[p]))
  }

  lemma ClaimSound<R>(s: System<R>, p: nat, commit: Commit)
    requires Before(s, p) && s.processes[p].phase.Claiming?
    ensures After(ClaimStep(s, p, s.processes[p].phase.request, commit), p)
  {
  }

  lemma ReadKeepsDurable<R>(s: System<R>, p: nat)
    requires p in s.processes
    ensures ReadStep(s, p) == s.(processes := ReadStep(s, p).processes)
  {
  }

  lemma ReadSound<R>(s: System<R>, p: nat)
    requires Before(s, p)
    ensures After(ReadStep(s, p), p)
  {
    hide ReadRow, ReadReceipt;
    assert s.status == Starting ==> s.receipt.Some? && !s.receipt.value.completed;
    assert ReadStep(s, p) == s.(processes := ReadStep(s, p).processes) by { ReadKeepsDurable(s, p); }
    DurableSame(s, ReadStep(s, p));
    hide DurableAgrees;
    var phase := s.processes[p].phase;
    if phase.Working? && phase.stage.ReconcilingRow? { ReadRowSound(s, p); }
    if phase.Working? && phase.stage.ReconcilingReceipt? { ReadReceiptSound(s, p); }
  }

  lemma DurableSame<R>(s: System<R>, t: System<R>)
    requires DurableAgrees(s) && t == s.(processes := t.processes)
    ensures DurableAgrees(t)
  {
  }

  lemma ReadRowSound<R>(s: System<R>, p: nat)
    requires Before(s, p) && s.processes[p].phase.Working? && s.processes[p].phase.stage.ReconcilingRow?
    ensures After(ReadRow(s, p, s.processes[p].phase.stage.purpose, s.processes[p].phase.receipt), p)
  {
    DurableSame(s, ReadRow(s, p, s.processes[p].phase.stage.purpose, s.processes[p].phase.receipt));
    hide DurableAgrees;
  }

  lemma ReadReceiptSound<R>(s: System<R>, p: nat)
    requires Before(s, p) && s.processes[p].phase.Working? && s.processes[p].phase.stage.ReconcilingReceipt?
    ensures After(ReadReceipt(s, p, s.processes[p].phase.stage.purpose, s.processes[p].phase.stage.row), p)
  {
    DurableSame(s, ReadReceipt(s, p, s.processes[p].phase.stage.purpose, s.processes[p].phase.stage.row));
    hide DurableAgrees;
  }

  lemma ReadFailureSound<R>(s: System<R>, p: nat)
    requires Before(s, p) && s.processes[p].phase.Working?
    ensures After(ReadFailure(s, p, s.processes[p].phase.stage), p)
  {
    DurableSame(s, ReadFailure(s, p, s.processes[p].phase.stage));
    hide DurableAgrees;
  }

  lemma InsertSound<R>(s: System<R>, p: nat, commit: Commit)
    requires Before(s, p) && s.processes[p].phase.Working? && s.processes[p].phase.stage == Inserting
    ensures After(InsertStep(s, p, s.processes[p].phase.receipt, commit), p)
  {
  }

  lemma ActivateSound<R>(s: System<R>, p: nat)
    requires Before(s, p) && s.processes[p].phase.Working? && s.processes[p].phase.stage == Activating
    ensures After(ActivateStep(s, p, s.processes[p].phase.receipt), p)
  {
  }

  lemma BeginSound<R>(s: System<R>, p: nat, drawn: nat, commit: Commit)
    requires Before(s, p) && s.processes[p].phase.Working? && s.processes[p].phase.stage == Beginning
    requires s.receipt.Some? && drawn !in s.tokens
    ensures After(BeginStep(s, p, s.processes[p].phase.receipt, drawn, commit), p)
  {
    assert drawn !in s.creates;
  }

  lemma CreateSound<R>(s: System<R>, p: nat, outcome: CreateOutcome)
    requires Before(s, p) && s.processes[p].phase.Working? && s.processes[p].phase.stage.Creating?
    ensures After(CreateStep(s, p, s.processes[p].phase.receipt, s.processes[p].phase.stage.token, outcome), p)
  {
  }

  lemma ResumeSound<R>(s: System<R>, p: nat, outcome: ResumeOutcome)
    requires Before(s, p) && s.processes[p].phase.Working? && s.processes[p].phase.stage in {Resuming, ResumingCreated}
    ensures After(ResumeStep(s, p, s.processes[p].phase.receipt, outcome), p)
  {
  }

  lemma CompleteSound<R>(s: System<R>, p: nat, commit: Commit)
    requires Before(s, p) && s.processes[p].phase.Working? && s.processes[p].phase.stage == Completing
    ensures After(CompleteStep(s, p, s.processes[p].phase.receipt, commit), p)
  {
  }

  lemma FailSound<R>(s: System<R>, p: nat, commit: Commit)
    requires Before(s, p) && s.processes[p].phase.Working? && s.processes[p].phase.stage == Failing
    ensures After(FailStep(s, p, s.processes[p].phase.receipt, commit), p)
  {
  }

  lemma SessionSound<R>(s: System<R>, action: Action<R>)
    requires action.AttachLive? || action.Quarantine? || action.EndSession? || action.BridgeFailed?
    requires Unlocked(s, action.process) && Before(s, action.process)
    ensures After(SessionStep(s, action), action.process)
  {
  }

  lemma HandlerSound<R>(s: System<R>, action: Action<R>)
    requires action.Claim? || action.Read? || action.Insert? || action.Activate? || action.Begin? || action.Create?
             || action.Resume? || action.Complete? || action.Fail?
    requires action.process in s.processes && Before(s, action.process)
    ensures After(HandlerStep(s, action), action.process)
  {
    var p := action.process;
    var phase := s.processes[p].phase;
    assert After(s, p);
    match action {
      case Claim(_, commit) => if phase.Claiming? { ClaimSound(s, p, commit); }
      case Read(_, ok) =>
        ReadSound(s, p);
        if phase.Working? { ReadFailureSound(s, p); }
      case Insert(_, commit) => if phase.Working? && phase.stage == Inserting { InsertSound(s, p, commit); }
      case Activate(_) => if phase.Working? && phase.stage == Activating { ActivateSound(s, p); }
      case Begin(_, drawn, commit) =>
        if phase.Working? && phase.stage == Beginning && s.receipt.Some? && drawn !in s.tokens {
          BeginSound(s, p, drawn, commit);
        }
      case Create(_, created) => if phase.Working? && phase.stage.Creating? { CreateSound(s, p, created); }
      case Resume(_, resumed) =>
        if phase.Working? && (phase.stage == Resuming || phase.stage == ResumingCreated) { ResumeSound(s, p, resumed); }
      case Complete(_, commit) => if phase.Working? && phase.stage == Completing { CompleteSound(s, p, commit); }
      case Fail(_, commit) => if phase.Working? && phase.stage == Failing { FailSound(s, p, commit); }
    }
  }

  /** A step keeps what the durable side promises, and what the process it names knows. */
  lemma StepSound<R>(s: System<R>, action: Action<R>)
    requires Agrees(s)
    ensures DurableAgrees(Step(s, action))
    ensures forall p | p in Step(s, action).processes && Moves(action, p) ::
              ProcessAgrees(Step(s, action), Step(s, action).processes[p])
  {
    match action {
      case Boot(p) => assert p in s.processes ==> ProcessAgrees(s, s.processes[p]);
      case Crash(_) =>
      case ForgetSdkSession =>
      case _ =>
        var p := action.process;
        assert p in s.processes ==> Before(s, p);
        hide HandlerStep, SessionStep;
        if action.AttachLive? || action.Quarantine? || action.EndSession? || action.BridgeFailed? {
          if Unlocked(s, p) { SessionSound(s, action); }
        } else if !action.Request? && !action.RestoreStarting? {
          if p in s.processes { HandlerSound(s, action); }
        }
    }
  }

  /** A handler's token is the one it just drew, or the one it had. */
  lemma TokenKept<R>(s: System<R>, action: Action<R>, p: nat)
    requires Moves(action, p) && p in Step(s, action).processes && Token(Step(s, action).processes[p]).Some?
    ensures p in s.processes
    ensures Token(Step(s, action).processes[p]) == Token(s.processes[p])
            || (action.Begin? && Token(Step(s, action).processes[p]).value == action.drawn && action.drawn !in s.tokens)
  {
  }

  lemma TokensStep<R>(s: System<R>, action: Action<R>)
    requires Agrees(s)
    ensures TokensDiffer(Step(s, action))
  {
    var t := Step(s, action);
    forall p | p in s.processes && Token(s.processes[p]).Some?
      ensures Token(s.processes[p]).value in s.tokens
    {
      assert ProcessAgrees(s, s.processes[p]);
    }
    hide Step, DurableAgrees, ProcessAgrees;
    forall p, q | p in t.processes && q in t.processes && p != q && Token(t.processes[p]).Some?
      ensures Token(t.processes[p]) != Token(t.processes[q])
    {
      if Moves(action, p) {
        TokenKept(s, action, p);
        OthersStay(s, action, q);
      } else {
        OthersStay(s, action, p);
        if Moves(action, q) && Token(t.processes[q]).Some? {
          TokenKept(s, action, q);
        } else if !Moves(action, q) {
          OthersStay(s, action, q);
        }
      }
    }
  }

  lemma StepAgrees<R>(s: System<R>, action: Action<R>)
    requires Agrees(s)
    ensures Agrees(Step(s, action))
  {
    StepSound(s, action);
    TokensStep(s, action);
    StepForward(s, action);
    CreatesGrow(s, action);
    hide Step, ProcessAgrees, DurableAgrees, Forward;
    var t := Step(s, action);
    forall p | p in t.processes
      ensures ProcessAgrees(t, t.processes[p])
    {
      if !Moves(action, p) {
        OthersStay(s, action, p);
        ProcessKept(s, t, s.processes[p]);
      }
    }
  }

  lemma {:induction false} RunAgrees<R>(actions: seq<Action<R>>)
    ensures Agrees(Run(New<R>(), actions))
  {
    if actions != [] {
      RunAgrees(actions[..|actions| - 1]);
      hide Agrees, Step;
      StepAgrees(Run(New<R>(), actions[..|actions| - 1]), actions[|actions| - 1]);
    }
  }

  // ---- CreateSession runs at most once, for the owner of the attempt ----

  // However many processes run, crash and restart: the SDK is asked to create at most one session per receipt, and only
  // for the persisted attempt.
  lemma CreatesAtMostOnce<R>(actions: seq<Action<R>>)
    ensures var s := Run(New<R>(), actions);
            && |s.creates| <= 1
            && (forall token | token in s.creates :: s.receipt.Some? && s.receipt.value.attempt == Some(token))
  {
    RunAgrees(actions);
    hide Run;
  }

  // A handler about to ask holds the persisted attempt's own token, nothing has been asked before, and it is alone.
  lemma OnlyTheOwnerCreates<R>(actions: seq<Action<R>>, p: nat)
    requires var s := Run(New<R>(), actions);
             p in s.processes && s.processes[p].phase.Working? && s.processes[p].phase.stage.Creating?
    ensures var s := Run(New<R>(), actions);
            && s.creates == [] && s.receipt.Some? && s.receipt.value.attempt == Some(s.processes[p].phase.stage.token)
            && forall q | q in s.processes && q != p && s.processes[q].phase.Working? ::
                 !s.processes[q].phase.stage.Creating?
  {
    RunAgrees(actions);
    hide Run;
    var s := Run(New<R>(), actions);
    assert ProcessAgrees(s, s.processes[p]);
    assert Token(s.processes[p]) == s.receipt.value.attempt;
    assert forall q | q in s.processes && s.processes[q].phase.Working? && s.processes[q].phase.stage.Creating? ::
        ProcessAgrees(s, s.processes[q]) && Token(s.processes[q]) == s.receipt.value.attempt;
  }

  // An existing session is starting exactly while its receipt is incomplete; a session that went live has its attempt;
  // and a caller is only ever answered with a session that has left starting for good.
  lemma PhasesArePaired<R>(actions: seq<Action<R>>)
    ensures var s := Run(New<R>(), actions);
            && (s.status != Missing ==> s.receipt.Some? && (s.status == Starting <==> !s.receipt.value.completed))
            && (s.status == Live ==> s.receipt.value.attempt.Some?)
            && (forall p | p in s.processes && s.processes[p].phase.Returned? && s.processes[p].phase.reply.Answer? ::
                  && s.processes[p].phase.reply.status !in {Missing, Starting} && s.status !in {Missing, Starting}
                  && s.receipt.Some? && s.receipt.value.completed)
  {
    RunAgrees(actions);
    hide Run;
    var s := Run(New<R>(), actions);
    assert forall p | p in s.processes :: ProcessAgrees(s, s.processes[p]);
  }

  // ---- reconcileStartingSession's two separate reads ----

  function Verdict(row: Status, completed: bool): Option<bool> {
    if row != Starting && completed then Some(true)
    else if row == Starting && !completed then Some(false)
    else None
  }

  // In every reachable state, for a handler between its two reads: the verdict is "committed" exactly when the first
  // read saw the session out of starting, "not committed" exactly when it is still starting now, and "inconsistent"
  // exactly when it left starting between the two reads.
  lemma VerdictExactly<R>(actions: seq<Action<R>>, p: nat)
    requires var s := Run(New<R>(), actions);
             p in s.processes && s.processes[p].phase.Working? && s.processes[p].phase.stage.ReconcilingReceipt?
    ensures var s := Run(New<R>(), actions);
            var row := s.processes[p].phase.stage.row;
            && s.receipt.Some?
            && (Verdict(row, s.receipt.value.completed) == Some(true) <==> row != Starting)
            && (Verdict(row, s.receipt.value.completed) == Some(false) <==> s.status == Starting)
            && (Verdict(row, s.receipt.value.completed) == None <==> row == Starting && s.status != Starting)
  {
    RunAgrees(actions);
    hide Run;
    var s := Run(New<R>(), actions);
    assert ProcessAgrees(s, s.processes[p]);
  }

  /** The handler gives up as inconsistent exactly on the third verdict. */
  lemma InconsistentExactly<R>(s: System<R>, p: nat)
    requires p in s.processes && s.processes[p].phase.Working? && s.processes[p].phase.stage.ReconcilingReceipt?
    requires s.receipt.Some?
    ensures Step(s, Read(p, true)).processes[p].phase == Returned(InconsistentPhases)
            <==> Verdict(s.processes[p].phase.stage.row, s.receipt.value.completed) == None
  {
  }

  predicate AtMostOneProcess<R>(s: System<R>) {
    forall a, b | a in s.processes && b in s.processes :: a == b
  }

  /** Nothing moves the session between a handler's two reads. */
  predicate ReadsTogether<R>(s: System<R>) {
    forall p | p in s.processes && s.processes[p].phase.Working? && s.processes[p].phase.stage.ReconcilingReceipt? ::
      s.processes[p].phase.stage.row == s.status
  }

  /** Only a live process moves the session, and then not by one of these two reads. */
  lemma StatusMoves<R>(s: System<R>, action: Action<R>)
    requires Step(s, action).status != s.status
    ensures !action.ForgetSdkSession? && action.process in s.processes && action.process in Step(s, action).processes
    ensures var phase := Step(s, action).processes[action.process].phase;
            phase.Working? ==> !phase.stage.ReconcilingReceipt?
  {
  }

  /** A handler enters its second read with the row it has just read. */
  lemma SecondReadBegins<R>(s: System<R>, action: Action<R>, p: nat)
    requires Moves(action, p) && p in Step(s, action).processes
    requires var phase := Step(s, action).processes[p].phase; phase.Working? && phase.stage.ReconcilingReceipt?
    ensures Step(s, action).processes[p].phase.stage.row == s.status
            || (p in s.processes && Step(s, action).processes[p].phase == s.processes[p].phase)
  {
  }

  lemma ReadsTogetherStep<R>(s: System<R>, action: Action<R>)
    requires ReadsTogether(s) && AtMostOneProcess(s) && AtMostOneProcess(Step(s, action))
    ensures ReadsTogether(Step(s, action))
  {
    var t := Step(s, action);
    if t.status != s.status { StatusMoves(s, action); }
    hide Step;
    forall p | p in t.processes && t.processes[p].phase.Working? && t.processes[p].phase.stage.ReconcilingReceipt?
      ensures t.processes[p].phase.stage.row == t.status
    {
      if Moves(action, p) {
        SecondReadBegins(s, action, p);
      } else {
        OthersStay(s, action, p);
      }
    }
  }

  // With one live process at a time no other commit falls between the reads, so the inconsistent branch is dead.
  lemma {:induction false} SingleProcessIsConsistent<R>(actions: seq<Action<R>>, p: nat)
    requires forall k | 0 <= k <= |actions| :: AtMostOneProcess(Run(New<R>(), actions[..k]))
    ensures ReadsTogether(Run(New<R>(), actions))
    ensures var s := Run(New<R>(), actions);
            p in s.processes && s.processes[p].phase.Working? && s.processes[p].phase.stage.ReconcilingReceipt? ==>
              Step(s, Read(p, true)).processes[p].phase != Returned(InconsistentPhases)
  {
    if actions != [] {
      var before := actions[..|actions| - 1];
      forall k | 0 <= k <= |before|
        ensures AtMostOneProcess(Run(New<R>(), before[..k]))
      {
        assert before[..k] == actions[..k];
      }
      SingleProcessIsConsistent(before, p);
      assert before[..|before|] == before && actions[..|actions|] == actions;
      assert AtMostOneProcess(Run(New<R>(), actions[..|actions| - 1]));
      hide ReadsTogether, Step, AtMostOneProcess;
      ReadsTogetherStep(Run(New<R>(), before), actions[|actions| - 1]);
    }
    var s := Run(New<R>(), actions);
    if p in s.processes && s.processes[p].phase.Working? && s.processes[p].phase.stage.ReconcilingReceipt? {
      VerdictExactly(actions, p);
      InconsistentExactly(s, p);
    }
  }

  // ---- Two live processes do reach the inconsistent verdict ----

  ghost predicate Reachable<R(!new)>(s: System<R>) {
    exists actions: seq<Action<R>> :: Run(New<R>(), actions) == s
  }

  lemma ReachStep<R(!new)>(s: System<R>, action: Action<R>) returns (t: System<R>)
    requires Reachable(s)
    ensures t == Step(s, action) && Reachable(t)
  {
    t := Step(s, action);
    var actions: seq<Action<R>> :| Run(New<R>(), actions) == s;
    assert (actions + [action])[..|actions|] == actions;
    assert Run(New<R>(), actions + [action]) == t;
  }

  /** A process claims the key. */
  lemma ReachChecking<R(!new)>(request: R) returns (s: System<R>)
    ensures Reachable(s)
    ensures var receipt := Receipt(request, None, false);
            s == System(Some(receipt), Missing, false, [], {}, map[0 := Process(Working(Checking, receipt), false)])
  {
    s := New();
    assert Reachable(s) by { assert Run(New<R>(), []) == s; }
    hide Reachable, Run, ReadStep, CompleteStep, FailStep;
    s := ReachStep(s, Boot(0));
    assert s == New<R>().(processes := map[0 := Process(Idle, false)]);
    s := ReachStep(s, Request(0, request));
    s := ReachStep(s, Claim(0, Acked));
  }

  /** It persists the starting row. */
  lemma ReachActivating<R(!new)>(request: R) returns (s: System<R>)
    ensures Reachable(s)
    ensures var receipt := Receipt(request, None, false);
            s == System(Some(receipt), Starting, false, [], {}, map[0 := Process(Working(Activating, receipt), false)])
  {
    s := ReachChecking(request);
    hide Reachable, Run, CompleteStep, FailStep;
    s := ReachStep(s, Read(0, true));
    s := ReachStep(s, Read(0, true));
    s := ReachStep(s, Insert(0, Acked));
  }

  /** It owns the attempt and creates the SDK session. */
  lemma ReachCreated<R(!new)>(request: R) returns (s: System<R>)
    ensures Reachable(s)
    ensures var receipt := Receipt(request, Some(0), false);
            s == System(Some(receipt), Starting, true, [0], {0}, map[0 := Process(Working(Completing, receipt), false)])
  {
    s := ReachActivating(request);
    hide Reachable, Run, CompleteStep, FailStep, ReadStep;
    s := ReachStep(s, Activate(0));
    s := ReachStep(s, Begin(0, 0, Acked));
    s := ReachStep(s, Create(0, Created));
  }

  /** Its completing transaction does not commit, and it reads the row as starting. */
  lemma ReachBetweenReads<R(!new)>(request: R) returns (s: System<R>)
    ensures Reachable(s)
    ensures var receipt := Receipt(request, Some(0), false);
            s == System(Some(receipt), Starting, true, [0], {0},
                        map[0 := Process(Working(ReconcilingReceipt(ToComplete, Starting), receipt), false)])
  {
    s := ReachCreated(request);
    hide Reachable, Run, FailStep;
    s := ReachStep(s, Complete(0, NotCommitted));
    s := ReachStep(s, Read(0, true));
  }

  /** A second process restores the session and resumes its SDK session. */
  lemma ReachBothWorking<R(!new)>(request: R) returns (s: System<R>)
    ensures Reachable(s)
    ensures var receipt := Receipt(request, Some(0), false);
            && s.receipt == Some(receipt) && s.status == Starting && 0 in s.processes && 1 in s.processes
            && s.processes[0] == Process(Working(ReconcilingReceipt(ToComplete, Starting), receipt), false)
            && s.processes[1] == Process(Working(Completing, receipt), false)
  {
    s := ReachBetweenReads(request);
    hide Reachable, Run, CompleteStep, FailStep;
    s := ReachStep(s, Boot(1));
    s := ReachStep(s, RestoreStarting(1));
    s := ReachStep(s, Read(1, true));
    s := ReachStep(s, Activate(1));
    s := ReachStep(s, Resume(1, Resumed));
  }

  // The second process completes the session between the first one's two reads, and the first gives up on a pair of
  // phases that was never in the store.
  lemma InconsistentIsReachable<R(!new)>(request: R) returns (s: System<R>)
    ensures Reachable(s) && 0 in s.processes && s.processes[0].phase == Returned(InconsistentPhases)
    ensures s.status == Live && s.receipt == Some(Receipt(request, Some(0), true))
  {
    s := ReachBothWorking(request);
    hide Reachable, Run, FailStep;
    s := ReachStep(s, Complete(1, Acked));
    s := ReachStep(s, Read(0, true));
  }
}
