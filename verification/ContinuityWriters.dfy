/** Resuming from a snapshot, and concurrent writers on one issue (pkg/workcontinuity/records.go, continuity.go). */
module ContinuityWriters {
  import opened Wrappers
  import opened GoIntegers
  import opened Continuity

  datatype Condition = NotFound | Ready | StaleData | InvalidData | ConflictingData

  datatype Finding = RevisionDiffers | IssueChanged | NotFresh

  datatype Record = Record(condition: Condition, tip: Option<Receipt>, findings: seq<Finding>)

  /** What Load returns: the issue's identity and fingerprint, and its comments. */
  datatype Snapshot = Snapshot(task: string, fingerprint: string, comments: seq<Comment>)

  predicate CheckpointFresh(recordedAt: int, now: int, maxAge: int) {
    0 <= SaturateInt64(now - recordedAt) <= maxAge
  }

  function TipFindings(tip: Checkpoint, snapshot: Snapshot, revision: string, now: int, maxAge: int): seq<Finding> {
    (if revision != "" && tip.revision != revision then [RevisionDiffers] else [])
    + (if tip.fingerprint != snapshot.fingerprint then [IssueChanged] else [])
    + (if !CheckpointFresh(tip.recordedAt, now, maxAge) then [NotFresh] else [])
  }

  ghost function ResumeOf(snapshot: Snapshot, revision: string, now: int, maxAge: int): Record {
    match HistoryOf(snapshot.comments, snapshot.task)
    case Failure(Invalid) => Record(InvalidData, None, [])
    case Failure(Conflict) => Record(ConflictingData, None, [])
    case Success(chain) =>
      if chain == [] then Record(NotFound, None, [])
      else
        var tip := chain[|chain| - 1];
        var findings := TipFindings(tip.checkpoint, snapshot, revision, now, maxAge);
        Record(if findings == [] then Ready else StaleData, Some(tip), findings)
  }

  method Resume(snapshot: Snapshot, revision: string, now: int, maxAge: int) returns (record: Record)
    ensures record == ResumeOf(snapshot, revision, now, maxAge)
  {
    var chain := History(snapshot.comments, snapshot.task);
    if chain.Failure? {
      return Record(if chain.error == Conflict then ConflictingData else InvalidData, None, []);
    }
    if |chain.value| == 0 {
      return Record(NotFound, None, []);
    }
    var tip := chain.value[|chain.value| - 1];
    hide HistoryOf, CheckpointFresh;
    record := Record(Ready, Some(tip), []);
    if revision != "" && tip.checkpoint.revision != revision {
      record := record.(findings := record.findings + [RevisionDiffers]);
    }
    if tip.checkpoint.fingerprint != snapshot.fingerprint {
      record := record.(findings := record.findings + [IssueChanged]);
    }
    if !CheckpointFresh(tip.checkpoint.recordedAt, now, maxAge) {
      record := record.(findings := record.findings + [NotFresh]);
    }
    assert record.findings == TipFindings(tip.checkpoint, snapshot, revision, now, maxAge);
    if |record.findings| > 0 {
      record := record.(condition := StaleData);
    }
  }

  /** The chain ends in a checkpoint with the caller's revision, the issue's present fingerprint, and an age in bounds. */
  predicate EndsCurrent(chain: seq<Checkpoint>, snapshot: Snapshot, revision: string, now: int, maxAge: int) {
    && chain != []
    && var tip := chain[|chain| - 1];
       && revision in {"", tip.revision} && tip.fingerprint == snapshot.fingerprint
       && tip.recordedAt <= now && SaturateInt64(now - tip.recordedAt) <= maxAge
  }

  lemma ReadyOnChain(snapshot: Snapshot, revision: string, now: int, maxAge: int, chain: seq<Checkpoint>)
    requires HistoryOf(snapshot.comments, snapshot.task) == Success(Receipts(snapshot.comments, chain))
    ensures ResumeOf(snapshot, revision, now, maxAge).condition == Ready
            <==> EndsCurrent(chain, snapshot, revision, now, maxAge)
  {
    hide HistoryOf, FirstUrl, ValidId;
  }

  // A snapshot is ready exactly when its trusted checkpoints are readable and form one chain that ends current.
  lemma ReadyExactly(snapshot: Snapshot, revision: string, now: int, maxAge: int)
    ensures ResumeOf(snapshot, revision, now, maxAge).condition == Ready
            <==> && Readable(snapshot.comments, snapshot.task)
                 && exists chain: seq<Checkpoint> ::
                      Chains(chain, Published(snapshot.comments)) && EndsCurrent(chain, snapshot, revision, now, maxAge)
  {
    hide *;
    if ResumeOf(snapshot, revision, now, maxAge).condition == Ready {
      var chain := ReadyTip(snapshot, revision, now, maxAge);
      ReadyOnChain(snapshot, revision, now, maxAge, chain);
    }
    if Readable(snapshot.comments, snapshot.task) {
      forall chain: seq<Checkpoint>
        | Chains(chain, Published(snapshot.comments)) && EndsCurrent(chain, snapshot, revision, now, maxAge)
        ensures ResumeOf(snapshot, revision, now, maxAge).condition == Ready
      {
        HistorySucceedsExactly(snapshot.comments, snapshot.task, chain);
        ReadyOnChain(snapshot, revision, now, maxAge, chain);
      }
    }
  }

  // ---- One call of Checkpoint, up to its append ----

  /** The caller's input, with the fields it may leave out. */
  datatype Draft = Draft(version: nat, id: string, task: string, revision: string, predecessor: string,
                         recordedAt: Option<int>, fingerprint: string, trace: Option<string>, content: string)

  datatype CallError = BadInput | Clash | Outdated | SourceFailed | LogFailed | NotVerified

  datatype Decision = Refuse(error: CallError) | Answer(record: Record) | Post(checkpoint: Checkpoint)

  /** What the process draws or reads for itself: two clock readings and a trace context. */
  datatype Local = Local(started: int, encoded: int, trace: string)

  ghost function Tip(chain: seq<Receipt>): string {
    if chain == [] then "" else chain[|chain| - 1].checkpoint.id
  }

  /** A new checkpoint as it would be recorded, with the defaults filled in. */
  ghost function Filled(draft: Draft, snapshot: Snapshot, tip: string, local: Local): Fields {
    Fields(draft.id, if draft.task == "" then snapshot.task else draft.task, draft.revision,
           if draft.predecessor == "" then tip else draft.predecessor,
           if draft.recordedAt.None? then local.started else draft.recordedAt.value,
           if draft.fingerprint == "" then snapshot.fingerprint else draft.fingerprint,
           if draft.trace.None? then local.trace else draft.trace.value, draft.content)
  }

  /** A draft repeats a recorded checkpoint when all that it says agrees. */
  predicate Repeats(draft: Draft, snapshot: Snapshot, existing: Fields) {
    && draft.version in {0, 1} && draft.id == existing.id && draft.task in {"", existing.task}
    && draft.revision == existing.revision && draft.predecessor in {"", existing.predecessor}
    && draft.recordedAt in {None, Some(existing.recordedAt)} && draft.fingerprint in {"", existing.fingerprint}
    && draft.trace in {None, Some(existing.trace)} && draft.content == existing.content
  }

  /** A checkpoint that is not recorded yet is posted if it follows the tip, fits the issue, is valid, and is fresh. */
  ghost function NewDecision(valid: Fields -> bool, snapshot: Snapshot, draft: Draft, tip: string, local: Local,
                             maxAge: int): Decision {
    var filled := Filled(draft, snapshot, tip, local);
    if filled.fingerprint != snapshot.fingerprint || filled.predecessor != tip then Refuse(Outdated)
    else if draft.version !in {0, 1} || !ValidId(filled.id) || !valid(filled) then Refuse(BadInput)
    else if !CheckpointFresh(filled.recordedAt, local.encoded, maxAge) then Refuse(Outdated)
    else Post(filled)
  }

  ghost function DecisionOf(valid: Fields -> bool, snapshot: Snapshot, draft: Draft, local: Local, maxAge: int): Decision {
    match HistoryOf(snapshot.comments, snapshot.task)
    case Failure(Invalid) => Refuse(BadInput)
    case Failure(Conflict) => Refuse(Clash)
    case Success(chain) =>
      if draft.task !in {"", snapshot.task} then Refuse(BadInput)
      else if exists receipt :: receipt in chain && receipt.checkpoint.id == draft.id then
        if exists receipt :: receipt in chain && Repeats(draft, snapshot, receipt.checkpoint) then
          Answer(ResumeOf(snapshot, draft.revision, local.encoded, maxAge))
        else Refuse(Clash)
      else NewDecision(valid, snapshot, draft, Tip(chain), local, maxAge)
  }

  lemma OneReceiptPerId(comments: seq<Comment>, task: string, a: Receipt, b: Receipt)
    requires HistoryOf(comments, task).Success? && a in HistoryOf(comments, task).value && b in HistoryOf(comments, task).value
    requires a.checkpoint.id == b.checkpoint.id
    ensures a == b
  {
    var chain := HistoryIsAChain(comments, task);
    var i :| 0 <= i < |chain| && Receipts(comments, chain)[i] == a;
    var j :| 0 <= j < |chain| && Receipts(comments, chain)[j] == b;
    assert chain[i] in chain && chain[j] in chain;
  }

  /** Fills what the draft leaves out from the recorded checkpoint, and compares. */
  method SameAsExisting(snapshot: Snapshot, draft: Draft, recorded: Checkpoint) returns (same: bool)
    requires recorded.task == snapshot.task && recorded.id == draft.id && draft.task in {"", snapshot.task}
    ensures same <==> Repeats(draft, snapshot, recorded)
  {
    var checkpoint := Fields(draft.id, snapshot.task, draft.revision, draft.predecessor,
                             if draft.recordedAt.Some? then draft.recordedAt.value else 0, draft.fingerprint,
                             if draft.trace.Some? then draft.trace.value else "", draft.content);
    if draft.recordedAt.None? {
      checkpoint := checkpoint.(recordedAt := recorded.recordedAt);
    }
    if draft.trace.None? {
      checkpoint := checkpoint.(trace := recorded.trace);
    }
    if checkpoint.fingerprint == "" {
      checkpoint := checkpoint.(fingerprint := recorded.fingerprint);
    }
    if checkpoint.predecessor == "" {
      checkpoint := checkpoint.(predecessor := recorded.predecessor);
    }
    same := (draft.version == 0 || draft.version == 1) && checkpoint == recorded;
  }

  /** Fills what the draft leaves out from the snapshot, the tip and the process, and checks the result. */
  method FillNew(valid: Fields -> bool, snapshot: Snapshot, draft: Draft, parent: string, local: Local, maxAge: int)
    returns (decision: Decision)
    requires draft.task in {"", snapshot.task}
    ensures decision == NewDecision(valid, snapshot, draft, parent, local, maxAge)
  {
    var checkpoint := Fields(draft.id, snapshot.task, draft.revision, draft.predecessor,
                             if draft.recordedAt.Some? then draft.recordedAt.value else local.started, draft.fingerprint,
                             if draft.trace.Some? then draft.trace.value else local.trace, draft.content);
    if checkpoint.fingerprint == "" {
      checkpoint := checkpoint.(fingerprint := snapshot.fingerprint);
    }
    if checkpoint.fingerprint != snapshot.fingerprint {
      return Refuse(Outdated);
    }
    if checkpoint.predecessor == "" {
      checkpoint := checkpoint.(predecessor := parent);
    }
    if checkpoint.predecessor != parent {
      return Refuse(Outdated);
    }
    if (draft.version != 0 && draft.version != 1) || !ValidId(checkpoint.id) || !valid(checkpoint) {
      return Refuse(BadInput);
    }
    if !CheckpointFresh(checkpoint.recordedAt, local.encoded, maxAge) {
      return Refuse(Outdated);
    }
    return Post(checkpoint);
  }

  method Decide(valid: Fields -> bool, snapshot: Snapshot, draft: Draft, local: Local, maxAge: int) returns (decision: Decision)
    ensures decision == DecisionOf(valid, snapshot, draft, local, maxAge)
  {
    var history := History(snapshot.comments, snapshot.task);
    if history.Failure? {
      return Refuse(if history.error == Invalid then BadInput else Clash);
    }
    var chain := history.value;
    hide HistoryOf, CheckpointFresh, ResumeOf;
    var existing: Option<Receipt> := None;
    for k := 0 to |chain|
      invariant existing.None? ==> forall i | 0 <= i < k :: chain[i].checkpoint.id != draft.id
      invariant existing.Some? ==> existing.value in chain && existing.value.checkpoint.id == draft.id
    {
      if chain[k].checkpoint.id == draft.id {
        existing := Some(chain[k]);
      }
    }
    if draft.task != "" && draft.task != snapshot.task {
      return Refuse(BadInput);
    }
    if existing.Some? {
      forall receipt | receipt in chain && receipt.checkpoint.id == draft.id
        ensures receipt == existing.value
      {
        OneReceiptPerId(snapshot.comments, snapshot.task, receipt, existing.value);
      }
      ReceiptTask(snapshot, existing.value);
      var repeats := SameAsExisting(snapshot, draft, existing.value.checkpoint);
      if !repeats {
        return Refuse(Clash);
      }
      var record := Resume(snapshot, draft.revision, local.encoded, maxAge);
      return Answer(record);
    }
    var parent := "";
    if |chain| > 0 {
      parent := chain[|chain| - 1].checkpoint.id;
    }
    decision := FillNew(valid, snapshot, draft, parent, local, maxAge);
  }

  lemma ReceiptTask(snapshot: Snapshot, receipt: Receipt)
    requires HistoryOf(snapshot.comments, snapshot.task).Success?
    requires receipt in HistoryOf(snapshot.comments, snapshot.task).value
    ensures receipt.checkpoint.task == snapshot.task
  {
    var chain := HistoryIsAChain(snapshot.comments, snapshot.task);
    var i :| 0 <= i < |chain| && Receipts(snapshot.comments, chain)[i] == receipt;
    assert chain[i] in chain;
  }

  // ---- Concurrent writers ----

  /** Where a call of Checkpoint is. */
  datatype Call =
    | Idle
    | Posting(checkpoint: Checkpoint)
    | Verifying(checkpoint: Checkpoint, trusted: bool)
    | Done(answer: Result<Record, CallError>)

  /** The issue as everyone sees it, the calls in flight, and the tips that successful appending calls have verified. */
  datatype System = System(snapshot: Snapshot, calls: map<nat, Call>, verified: seq<Checkpoint>)

  datatype Action =
    | Start(call: nat, draft: Draft, local: Local, logged: bool)
    | Append(call: nat, blankLogin: bool, association: Association, url: string, committed: bool, acknowledged: bool)
    | Verify(call: nat, now: int, loaded: bool, logged: bool)
    | Comment(comment: Comment)
    | EditIssue(fingerprint: string)

  function CallOf(s: System, call: nat): Call {
    if call in s.calls then s.calls[call] else Idle
  }

  /** One atomic step of a call, or of anyone else on the issue; comments are only ever appended. */
  ghost function Step(valid: Fields -> bool, maxAge: int, s: System, action: Action): System {
    match action
    case Start(call, draft, local, logged) =>
      if !CallOf(s, call).Idle? then s
      else
        var next := match DecisionOf(valid, s.snapshot, draft, local, maxAge)
          case Refuse(error) => Done(Failure(error))
          case Answer(record) => Done(Success(record))
          case Post(checkpoint) => if logged then Posting(checkpoint) else Done(Failure(LogFailed));
        s.(calls := s.calls[call := next])
    case Append(call, blankLogin, association, url, committed, acknowledged) =>
      if !CallOf(s, call).Posting? then s
      else
        var checkpoint := CallOf(s, call).checkpoint;
        var comment := Continuity.Comment(blankLogin, association, true, Some(checkpoint), url);
        var comments := if committed then s.snapshot.comments + [comment] else s.snapshot.comments;
        s.(snapshot := s.snapshot.(comments := comments),
           calls := s.calls[call := if committed && acknowledged then Verifying(checkpoint, TrustedPublisher(comment))
                                    else Done(Failure(SourceFailed))])
    case Verify(call, now, loaded, logged) =>
      if !CallOf(s, call).Verifying? then s
      else
        var checkpoint := CallOf(s, call).checkpoint;
        var record := ResumeOf(s.snapshot, checkpoint.revision, now, maxAge);
        if !loaded then s.(calls := s.calls[call := Done(Failure(SourceFailed))])
        else if record.condition != Ready || record.tip.value.checkpoint.id != checkpoint.id then
          s.(calls := s.calls[call := Done(Failure(NotVerified))])
        else if !logged then s.(calls := s.calls[call := Done(Failure(LogFailed))])
        else s.(calls := s.calls[call := Done(Success(record))], verified := s.verified + [record.tip.value.checkpoint])
    case Comment(comment) => s.(snapshot := s.snapshot.(comments := s.snapshot.comments + [comment]))
    case EditIssue(fingerprint) => s.(snapshot := s.snapshot.(fingerprint := fingerprint))
  }

  ghost function StateAt(valid: Fields -> bool, maxAge: int, snapshot: Snapshot, actions: seq<Action>, k: nat): System
    requires k <= |actions|
  {
    if k == 0 then System(snapshot, map[], [])
    else Step(valid, maxAge, StateAt(valid, maxAge, snapshot, actions, k - 1), actions[k - 1])
  }

  /** The verified tips lie on a chain, in the order in which they were verified. */
  predicate InOrder(verified: seq<Checkpoint>, chain: seq<Checkpoint>, positions: seq<nat>) {
    && |positions| == |verified|
    && (forall i | 0 <= i < |verified| :: positions[i] < |chain| && chain[positions[i]] == verified[i])
    && (forall i, j | 0 <= i < j < |verified| :: positions[i] <= positions[j])
  }

  ghost predicate AnchoredBy(s: System, n: nat, chain: seq<Checkpoint>, positions: seq<nat>) {
    && n <= |s.snapshot.comments|
    && HistoryOf(s.snapshot.comments[..n], s.snapshot.task) == Success(Receipts(s.snapshot.comments[..n], chain))
    && InOrder(s.verified, chain, positions)
  }

  /** The verified tips lie in order on the history of some earlier beginning of the comments. */
  ghost predicate Anchored(s: System) {
    exists n: nat, chain: seq<Checkpoint>, positions: seq<nat> :: AnchoredBy(s, n, chain, positions)
  }

  /** The comment of a call that a trusted account posted is part of the history. */
  predicate PostedArePublished(s: System) {
    forall call | call in s.calls && s.calls[call].Verifying? && s.calls[call].trusted ::
      s.calls[call].checkpoint in Published(s.snapshot.comments)
  }

  lemma PublishedGrows(comments: seq<Comment>, more: seq<Comment>)
    ensures Published(comments) <= Published(comments + more)
  {
    assert forall comment | comment in comments :: comment in comments + more;
  }

  lemma StepPublished(valid: Fields -> bool, maxAge: int, s: System, action: Action)
    requires PostedArePublished(s)
    ensures PostedArePublished(Step(valid, maxAge, s, action))
  {
    hide DecisionOf, ResumeOf;
    match action {
      case Append(call, blankLogin, association, url, committed, acknowledged) =>
        if CallOf(s, call).Posting? {
          var comment := Continuity.Comment(blankLogin, association, true, Some(CallOf(s, call).checkpoint), url);
          PublishedGrows(s.snapshot.comments, [comment]);
          assert comment in s.snapshot.comments + [comment];
        }
      case Comment(comment) => PublishedGrows(s.snapshot.comments, [comment]);
      case _ =>
    }
  }

  /** A ready record's tip ends the history's chain. */
  lemma ReadyTip(snapshot: Snapshot, revision: string, now: int, maxAge: int) returns (chain: seq<Checkpoint>)
    requires ResumeOf(snapshot, revision, now, maxAge).condition == Ready
    ensures HistoryOf(snapshot.comments, snapshot.task) == Success(Receipts(snapshot.comments, chain))
    ensures Readable(snapshot.comments, snapshot.task) && Chains(chain, Published(snapshot.comments)) && chain != []
    ensures ResumeOf(snapshot, revision, now, maxAge).tip.Some?
    ensures ResumeOf(snapshot, revision, now, maxAge).tip.value.checkpoint == chain[|chain| - 1]
  {
    chain := HistoryIsAChain(snapshot.comments, snapshot.task);
  }

  /** A later history begins with an earlier one. */
  lemma LaterChainExtends(comments: seq<Comment>, n: nat, task: string, chain: seq<Checkpoint>, later: seq<Checkpoint>)
    requires n <= |comments|
    requires HistoryOf(comments[..n], task) == Success(Receipts(comments[..n], chain))
    requires HistoryOf(comments, task) == Success(Receipts(comments, later))
    ensures chain <= later
  {
    assert comments == comments[..n] + comments[n..];
    ExtensionKeepsHistory(comments[..n], comments[n..], task);
    var early := Receipts(comments[..n], chain);
    var late := Receipts(comments, later);
    assert |chain| == |early| <= |late| == |later|;
    forall i | 0 <= i < |chain|
      ensures chain[i] == later[i]
    {
      assert early[i] == late[i];
    }
  }

  /** Comments that arrive later leave an anchor in place. */
  lemma AnchorStays(s: System, t: System)
    requires Anchored(s) && t.verified == s.verified && t.snapshot.task == s.snapshot.task
    requires s.snapshot.comments <= t.snapshot.comments
    ensures Anchored(t)
  {
    var n: nat, chain: seq<Checkpoint>, positions: seq<nat> :| AnchoredBy(s, n, chain, positions);
    hide HistoryOf, InOrder, Receipts;
    assert t.snapshot.comments[..n] == s.snapshot.comments[..n];
    assert AnchoredBy(t, n, chain, positions);
  }

  /** A verified tip is anchored by the history that it ends. */
  lemma AnchorMoves(s: System, later: seq<Checkpoint>)
    requires Anchored(s) && later != []
    requires HistoryOf(s.snapshot.comments, s.snapshot.task) == Success(Receipts(s.snapshot.comments, later))
    ensures Anchored(s.(verified := s.verified + [later[|later| - 1]]))
  {
    var n: nat, chain: seq<Checkpoint>, positions: seq<nat> :| AnchoredBy(s, n, chain, positions);
    hide HistoryOf, Receipts;
    LaterChainExtends(s.snapshot.comments, n, s.snapshot.task, chain, later);
    var t := s.(verified := s.verified + [later[|later| - 1]]);
    assert s.snapshot.comments[..|s.snapshot.comments|] == s.snapshot.comments;
    assert InOrder(t.verified, later, positions + [|later| - 1]);
    assert AnchoredBy(t, |s.snapshot.comments|, later, positions + [|later| - 1]);
  }

  lemma StepAnchored(valid: Fields -> bool, maxAge: int, s: System, action: Action)
    requires Anchored(s)
    ensures Anchored(Step(valid, maxAge, s, action))
  {
    hide Anchored, DecisionOf, HistoryOf, ResumeOf, ValidId;
    var t := Step(valid, maxAge, s, action);
    if t.verified == s.verified {
      AnchorStays(s, t);
    } else {
      var later := ReadyTip(s.snapshot, CallOf(s, action.call).checkpoint.revision, action.now, maxAge);
      AnchorMoves(s, later);
      AnchorStays(s.(verified := t.verified), t);
    }
  }

  lemma {:induction false} RunKeeps(valid: Fields -> bool, maxAge: int, snapshot: Snapshot, actions: seq<Action>, k: nat)
    requires k <= |actions|
    ensures var s := StateAt(valid, maxAge, snapshot, actions, k); Anchored(s) && PostedArePublished(s)
    ensures StateAt(valid, maxAge, snapshot, actions, k).snapshot.task == snapshot.task
  {
    if k == 0 {
      var s := System(snapshot, map[], []);
      assert snapshot.comments[..0] == [] && Published([]) == {} && Chains([], {});
      HistorySucceedsExactly([], snapshot.task, []);
      assert AnchoredBy(s, 0, [], []);
    } else {
      RunKeeps(valid, maxAge, snapshot, actions, k - 1);
      hide Anchored, PostedArePublished, DecisionOf, ResumeOf;
      StepAnchored(valid, maxAge, StateAt(valid, maxAge, snapshot, actions, k - 1), actions[k - 1]);
      StepPublished(valid, maxAge, StateAt(valid, maxAge, snapshot, actions, k - 1), actions[k - 1]);
    }
  }

  // Under every interleaving of writers and other comments: the verified checkpoints lie, in the order in which they
  // were verified, on every later history that succeeds.
  lemma VerifiedStayInHistory(valid: Fields -> bool, maxAge: int, snapshot: Snapshot, actions: seq<Action>, k: nat,
                              chain: seq<Checkpoint>)
    returns (positions: seq<nat>)
    requires k <= |actions|
    requires var s := StateAt(valid, maxAge, snapshot, actions, k);
             HistoryOf(s.snapshot.comments, s.snapshot.task) == Success(Receipts(s.snapshot.comments, chain))
    ensures InOrder(StateAt(valid, maxAge, snapshot, actions, k).verified, chain, positions)
  {
    RunKeeps(valid, maxAge, snapshot, actions, k);
    hide StateAt, HistoryOf;
    var s := StateAt(valid, maxAge, snapshot, actions, k);
    var n: nat, early: seq<Checkpoint>, found: seq<nat> :| AnchoredBy(s, n, early, found);
    LaterChainExtends(s.snapshot.comments, n, s.snapshot.task, early, chain);
    positions := found;
  }

  // At most one checkpoint per predecessor is ever verified.
  lemma OneSuccessPerPredecessor(valid: Fields -> bool, maxAge: int, snapshot: Snapshot, actions: seq<Action>, k: nat,
                                 i: nat, j: nat)
    requires k <= |actions|
    requires var verified := StateAt(valid, maxAge, snapshot, actions, k).verified;
             i < |verified| && j < |verified| && verified[i].predecessor == verified[j].predecessor
    ensures var verified := StateAt(valid, maxAge, snapshot, actions, k).verified; verified[i] == verified[j]
  {
    RunKeeps(valid, maxAge, snapshot, actions, k);
    hide StateAt;
    var s := StateAt(valid, maxAge, snapshot, actions, k);
    var n: nat, chain: seq<Checkpoint>, positions: seq<nat> :| AnchoredBy(s, n, chain, positions);
    var before := s.snapshot.comments[..n];
    var found := HistoryIsAChain(before, s.snapshot.task);
    ReceiptsDetermineChain(before, chain, found);
    hide HistoryOf;
    assert chain[positions[i]].predecessor == IdBefore(chain, positions[i]);
    OnePosition(chain, Published(before), positions[i], positions[j]);
  }

  // A call that succeeds has verified its own checkpoint if and only if that checkpoint is published: the comparison is
  // by ID alone, so a call whose account is not trusted can succeed on another writer's payload.
  lemma SuccessVerifiesOwnExactly(snapshot: Snapshot, own: Checkpoint, now: int, maxAge: int)
    requires var record := ResumeOf(snapshot, own.revision, now, maxAge);
             record.condition == Ready && record.tip.value.checkpoint.id == own.id
    ensures ResumeOf(snapshot, own.revision, now, maxAge).tip.value.checkpoint == own <==> own in Published(snapshot.comments)
  {
    var chain := ReadyTip(snapshot, own.revision, now, maxAge);
    assert chain[|chain| - 1] in chain;
  }

  // A trusted call that succeeds has verified its own checkpoint, under every interleaving.
  lemma TrustedCallVerifiesItself(valid: Fields -> bool, maxAge: int, snapshot: Snapshot, actions: seq<Action>, k: nat,
                                  call: nat, now: int)
    requires k <= |actions|
    requires var s := StateAt(valid, maxAge, snapshot, actions, k);
             CallOf(s, call).Verifying? && CallOf(s, call).trusted
             && CallOf(Step(valid, maxAge, s, Verify(call, now, true, true)), call).answer.Success?
    ensures var s := StateAt(valid, maxAge, snapshot, actions, k);
            var t := Step(valid, maxAge, s, Verify(call, now, true, true));
            && t.verified == s.verified + [CallOf(s, call).checkpoint]
            && CallOf(t, call).answer.value.tip.value.checkpoint == CallOf(s, call).checkpoint
  {
    RunKeeps(valid, maxAge, snapshot, actions, k);
    hide StateAt;
    var s := StateAt(valid, maxAge, snapshot, actions, k);
    SuccessVerifiesOwnExactly(s.snapshot, CallOf(s, call).checkpoint, now, maxAge);
  }

  /** A decision to post makes a checkpoint that continues the history. */
  lemma PostContinues(valid: Fields -> bool, snapshot: Snapshot, draft: Draft, local: Local, maxAge: int)
    returns (chain: seq<Checkpoint>)
    requires DecisionOf(valid, snapshot, draft, local, maxAge).Post?
    ensures HistoryOf(snapshot.comments, snapshot.task) == Success(Receipts(snapshot.comments, chain))
    ensures Readable(snapshot.comments, snapshot.task) && Chains(chain, Published(snapshot.comments))
    ensures var c := DecisionOf(valid, snapshot, draft, local, maxAge).checkpoint;
            && c.predecessor == IdBefore(chain, |chain|) && c.task == snapshot.task && c.fingerprint == snapshot.fingerprint
            && (forall other | other in chain :: other.id != c.id)
  {
    chain := HistoryIsAChain(snapshot.comments, snapshot.task);
    var receipts := HistoryOf(snapshot.comments, snapshot.task).value;
    forall other | other in chain
      ensures other.id != draft.id
    {
      var i :| 0 <= i < |chain| && chain[i] == other;
      assert receipts[i] in receipts;
    }
  }

  /** A trusted comment with the next checkpoint makes the history one receipt longer. */
  lemma NextExtendsHistory(comments: seq<Comment>, task: string, chain: seq<Checkpoint>, comment: Comment)
    requires Readable(comments, task) && Chains(chain, Published(comments))
    requires Relevant(comment) && comment.decoded.Some? && comment.decoded.value.task == task
    requires comment.decoded.value.predecessor == IdBefore(chain, |chain|)
    requires forall other | other in chain :: other.id != comment.decoded.value.id
    ensures HistoryOf(comments + [comment], task)
            == Success(Receipts(comments, chain) + [Receipt(comment.decoded.value, comment.url)])
  {
    var c := comment.decoded.value;
    var all := comments + [comment];
    PublishedExtends(comments, comment);
    LinkedExtends(chain, c);
    assert Readable(all, task);
    assert Chains(chain + [c], Published(all));
    HistorySucceedsExactly(all, task, chain + [c]);
    assert all[..|comments|] == comments;
    forall i | 0 <= i < |chain|
      ensures Receipts(all, chain + [c])[i] == Receipts(comments, chain)[i]
    {
      assert chain[i] in chain;
      FirstUrlIsStable(comments, [comment], chain[i]);
    }
    assert Receipts(all, chain + [c]) == Receipts(comments, chain) + [Receipt(c, comment.url)];
  }

  lemma StartPosts(valid: Fields -> bool, maxAge: int, s: System, call: nat, draft: Draft, local: Local)
    requires CallOf(s, call).Idle? && DecisionOf(valid, s.snapshot, draft, local, maxAge).Post?
    ensures Step(valid, maxAge, s, Start(call, draft, local, true))
            == s.(calls := s.calls[call := Posting(DecisionOf(valid, s.snapshot, draft, local, maxAge).checkpoint)])
  {
    hide DecisionOf, ResumeOf;
  }

  lemma AppendVerifies(valid: Fields -> bool, maxAge: int, s: System, call: nat, association: Association, url: string)
    requires CallOf(s, call).Posting?
    ensures var comment := Continuity.Comment(false, association, true, Some(CallOf(s, call).checkpoint), url);
            Step(valid, maxAge, s, Append(call, false, association, url, true, true))
            == s.(snapshot := s.snapshot.(comments := s.snapshot.comments + [comment]),
                  calls := s.calls[call := Verifying(CallOf(s, call).checkpoint, !association.Other?)])
  {
    hide DecisionOf, ResumeOf;
  }

  /** Verification succeeds on a tip with the call's ID that fits the issue and the call's revision. */
  lemma VerifySucceeds(valid: Fields -> bool, maxAge: int, s: System, call: nat, now: int, receipts: seq<Receipt>)
    requires CallOf(s, call).Verifying? && receipts != []
    requires HistoryOf(s.snapshot.comments, s.snapshot.task) == Success(receipts)
    requires var tip, own := receipts[|receipts| - 1].checkpoint, CallOf(s, call).checkpoint;
             && tip.id == own.id && tip.revision == own.revision && tip.fingerprint == s.snapshot.fingerprint
             && CheckpointFresh(tip.recordedAt, now, maxAge)
    ensures var tip := receipts[|receipts| - 1];
            Step(valid, maxAge, s, Verify(call, now, true, true))
            == s.(calls := s.calls[call := Done(Success(Record(Ready, Some(tip), [])))], verified := s.verified + [tip.checkpoint])
  {
    hide HistoryOf, CheckpointFresh, DecisionOf;
  }

  // A call that nobody disturbs and whose checkpoint is still fresh at the end makes the history exactly one longer,
  // and succeeds on it.
  lemma UndisturbedCallExtends(valid: Fields -> bool, maxAge: int, s: System, call: nat, draft: Draft, local: Local,
                               association: Association, url: string, now: int)
    requires CallOf(s, call).Idle? && !association.Other?
    requires DecisionOf(valid, s.snapshot, draft, local, maxAge).Post?
    requires CheckpointFresh(DecisionOf(valid, s.snapshot, draft, local, maxAge).checkpoint.recordedAt, now, maxAge)
    ensures var c := DecisionOf(valid, s.snapshot, draft, local, maxAge).checkpoint;
            var started := Step(valid, maxAge, s, Start(call, draft, local, true));
            var appended := Step(valid, maxAge, started, Append(call, false, association, url, true, true));
            var verified := Step(valid, maxAge, appended, Verify(call, now, true, true));
            && HistoryOf(s.snapshot.comments, s.snapshot.task).Success?
            && HistoryOf(verified.snapshot.comments, s.snapshot.task)
               == Success(HistoryOf(s.snapshot.comments, s.snapshot.task).value + [Receipt(c, url)])
            && CallOf(verified, call) == Done(Success(Record(Ready, Some(Receipt(c, url)), [])))
            && verified.verified == s.verified + [c]
  {
    var c := DecisionOf(valid, s.snapshot, draft, local, maxAge).checkpoint;
    var chain := PostContinues(valid, s.snapshot, draft, local, maxAge);
    var comment := Continuity.Comment(false, association, true, Some(c), url);
    var task, comments := s.snapshot.task, s.snapshot.comments;
    var receipts := Receipts(comments, chain) + [Receipt(c, url)];
    hide DecisionOf, HistoryOf, ResumeOf, CheckpointFresh, Readable, Chains, FirstUrl, Published, ValidId;
    StartPosts(valid, maxAge, s, call, draft, local);
    NextExtendsHistory(comments, task, chain, comment);
    var appended := s.(snapshot := s.snapshot.(comments := comments + [comment]),
                       calls := s.calls[call := Posting(c)][call := Verifying(c, true)]);
    VerifySucceeds(valid, maxAge, appended, call, now, receipts);
  }

  /** A trusted comment of someone else with the same ID, predecessor and task as a checkpoint, but other content. */
  function Rival(c: Checkpoint, content: string, url: string): Continuity.Comment {
    Continuity.Comment(false, Owner, true, Some(c.(content := content)), url)
  }

  lemma NewIsUnpublished(own: Checkpoint, chain: seq<Checkpoint>, comments: seq<Continuity.Comment>)
    requires Chains(chain, Published(comments)) && forall other | other in chain :: other.id != own.id
    ensures own !in Published(comments)
  {
    hide Published, Linked;
  }

  lemma CommentArrives(valid: Fields -> bool, maxAge: int, s: System, comment: Continuity.Comment)
    ensures Step(valid, maxAge, s, Action.Comment(comment))
            == s.(snapshot := s.snapshot.(comments := s.snapshot.comments + [comment]))
  {
    hide DecisionOf, ResumeOf;
  }

  // A call from an account that is not trusted succeeds on another writer's checkpoint: from every state in which it
  // would post, if a trusted comment uses its ID with other content before its own comment arrives.
  lemma UntrustedCallVerifiesAnother(valid: Fields -> bool, maxAge: int, s: System, call: nat, draft: Draft, local: Local,
                                     content: string, theirs: string, ours: string, now: int)
    requires CallOf(s, call).Idle? && DecisionOf(valid, s.snapshot, draft, local, maxAge).Post?
    requires content != DecisionOf(valid, s.snapshot, draft, local, maxAge).checkpoint.content
    requires CheckpointFresh(DecisionOf(valid, s.snapshot, draft, local, maxAge).checkpoint.recordedAt, now, maxAge)
    ensures var own := DecisionOf(valid, s.snapshot, draft, local, maxAge).checkpoint;
            var other: Checkpoint := own.(content := content);
            var started := Step(valid, maxAge, s, Start(call, draft, local, true));
            var disturbed := Step(valid, maxAge, started, Action.Comment(Rival(own, content, theirs)));
            var appended := Step(valid, maxAge, disturbed, Append(call, false, Other, ours, true, true));
            var verified := Step(valid, maxAge, appended, Verify(call, now, true, true));
            && other != own && other.id == own.id
            && CallOf(verified, call) == Done(Success(Record(Ready, Some(Receipt(other, theirs)), [])))
            && verified.verified == s.verified + [other]
            && own !in Published(verified.snapshot.comments)
  {
    hide DecisionOf, HistoryOf, ResumeOf, CheckpointFresh, Readable, Chains, FirstUrl, Published, ValidId, Step;
    var own := DecisionOf(valid, s.snapshot, draft, local, maxAge).checkpoint;
    StartPosts(valid, maxAge, s, call, draft, local);
    var other: Checkpoint := own.(content := content);
    var rival := Rival(own, content, theirs);
    var unseen := Continuity.Comment(false, Other, true, Some(own), ours);
    var disturbed := s.(snapshot := s.snapshot.(comments := s.snapshot.comments + [rival]),
                        calls := s.calls[call := Posting(own)]);
    AppendVerifies(valid, maxAge, disturbed, call, Other, ours);
    var chain := PostContinues(valid, s.snapshot, draft, local, maxAge);
    assert own !in Published(s.snapshot.comments) by { NewIsUnpublished(own, chain, s.snapshot.comments); }
    var task, comments := s.snapshot.task, s.snapshot.comments;
    var receipts := Receipts(comments, chain) + [Receipt(other, theirs)];
    CommentArrives(valid, maxAge, s.(calls := s.calls[call := Posting(own)]), rival);
    NextExtendsHistory(comments, task, chain, rival);
    UnseenChangesNothing(comments + [rival], task, unseen);
    PublishedExtends(comments, rival);
    var appended := s.(snapshot := s.snapshot.(comments := comments + [rival] + [unseen]),
                       calls := s.calls[call := Posting(own)][call := Verifying(own, false)]);
    VerifySucceeds(valid, maxAge, appended, call, now, receipts);
  }

  /** A comment that is passed over changes neither a history nor what is published. */
  lemma UnseenChangesNothing(comments: seq<Continuity.Comment>, task: string, comment: Continuity.Comment)
    requires !Relevant(comment) && HistoryOf(comments, task).Success?
    ensures HistoryOf(comments + [comment], task) == HistoryOf(comments, task)
    ensures Published(comments + [comment]) == Published(comments)
  {
    PublishedExtends(comments, comment);
    var chain := HistoryIsAChain(comments, task);
    var all := comments + [comment];
    assert Readable(all, task);
    HistorySucceedsExactly(all, task, chain);
    forall i | 0 <= i < |chain|
      ensures Receipts(all, chain)[i] == Receipts(comments, chain)[i]
    {
      assert chain[i] in chain;
      FirstUrlIsStable(comments, [comment], chain[i]);
    }
    assert Receipts(all, chain) == Receipts(comments, chain);
  }
}
