/** What a caller that creates a session is told, and what is recorded for it (services/copilot-adapter/handlers.go, restoration.go). */
module CopilotCreationReplies {
  import opened Wrappers
  import opened CopilotCreation

  predicate Free<R>(s: System<R>, p: nat) {
    p in s.processes && (s.processes[p].phase.Idle? || s.processes[p].phase.Returned?)
  }

  lemma RunExtends<R>(s: System<R>, actions: seq<Action<R>>, action: Action<R>)
    ensures Run(s, actions + [action]) == Step(Run(s, actions), action)
  {
    assert (actions + [action])[..|actions|] == actions;
  }

  lemma {:induction false} RunConcatenates<R>(s: System<R>, actions: seq<Action<R>>, script: seq<Action<R>>)
    ensures Run(s, actions + script) == Run(Run(s, actions), script)
  {
    if script == [] {
      assert actions + script == actions;
    } else {
      var shorter := script[..|script| - 1];
      RunConcatenates(s, actions, shorter);
      assert actions + script == (actions + shorter) + [script[|script| - 1]];
      RunExtends(s, actions + shorter, script[|script| - 1]);
    }
  }

  lemma RunOf1<R>(s: System<R>, a: Action<R>)
    ensures Run(s, [a]) == Step(s, a)
  {
    assert Run(s, []) == s;
    hide Step, Run;
    RunExtends(s, [], a);
    assert [] + [a] == [a];
  }

  lemma RunOf2<R>(s: System<R>, a: Action<R>, b: Action<R>)
    ensures Run(s, [a, b]) == Step(Step(s, a), b)
  {
    RunOf1(s, a);
    hide Step, Run;
    RunExtends(s, [a], b);
    assert [a] + [b] == [a, b];
  }

  lemma RunOf3<R>(s: System<R>, a: Action<R>, b: Action<R>, c: Action<R>)
    ensures Run(s, [a, b, c]) == Step(Step(Step(s, a), b), c)
  {
    RunOf2(s, a, b);
    hide Step, Run;
    RunExtends(s, [a, b], c);
    assert [a, b] + [c] == [a, b, c];
  }

  lemma RunOf4<R>(s: System<R>, a: Action<R>, b: Action<R>, c: Action<R>, d: Action<R>)
    ensures Run(s, [a, b, c, d]) == Step(Step(Step(Step(s, a), b), c), d)
  {
    RunOf3(s, a, b, c);
    hide Step, Run;
    RunExtends(s, [a, b, c], d);
    assert [a, b, c] + [d] == [a, b, c, d];
  }

  // ---- A repeated request ----

  lemma RepeatReadsReceipt<R>(s: System<R>, p: nat, request: R, commit: Commit)
    requires Free(s, p) && s.receipt.Some?
    ensures Step(Step(Step(s, Request(p, request)), Claim(p, commit)), Read(p, true))
            == Move(s, p, if s.receipt.value.request == request then Working(Checking, s.receipt.value) else Returned(KeyReused))
  {
    hide CompleteStep, FailStep, ReadRow, ReadReceipt;
  }

  lemma CheckAnswers<R>(s: System<R>, p: nat, receipt: Receipt<R>)
    requires p in s.processes && s.status !in {Missing, Starting}
    ensures s.processes[p].phase == Working(Checking, receipt) ==> Step(s, Read(p, true)) == Move(s, p, Returned(Answer(s.status)))
    ensures s.processes[p].phase.Returned? ==> Step(s, Read(p, true)) == s
  {
    hide CompleteStep, FailStep, ReadRow, ReadReceipt;
  }

  // A repeat of the request of a session that has left starting is answered with the session as it is, and another
  // request under its key is refused; nothing changes.
  lemma RepeatIsAnswered<R(!new)>(actions: seq<Action<R>>, p: nat, request: R, commit: Commit)
    requires var s := Run(New<R>(), actions); Free(s, p) && s.receipt.Some? && s.status !in {Missing, Starting}
    ensures var s := Run(New<R>(), actions);
            && s.receipt.value.completed
            && Run(s, [Request(p, request), Claim(p, commit), Read(p, true), Read(p, true)])
               == Move(s, p, Returned(if s.receipt.value.request == request then Answer(s.status) else KeyReused))
  {
    var s := Run(New<R>(), actions);
    PhasesArePaired(actions);
    hide Step, Run;
    RunOf4(s, Request(p, request), Claim(p, commit), Read(p, true), Read(p, true));
    RepeatReadsReceipt(s, p, request, commit);
    CheckAnswers(Step(Step(Step(s, Request(p, request)), Claim(p, commit)), Read(p, true)), p, s.receipt.value);
  }

  // ---- A new session ----

  /** The first half of a creation, up to the starting row; the reads follow where an acknowledgement was lost. */
  function Claims<R>(p: nat, request: R, commit: Commit): seq<Action<R>> {
    if commit == Acked then [Request(p, request), Claim(p, commit)] else [Request(p, request), Claim(p, commit), Read(p, true)]
  }

  function Inserts<R>(p: nat, commit: Commit): seq<Action<R>> {
    if commit == Acked then [Read(p, true), Read(p, true), Insert(p, commit)]
    else [Read(p, true), Read(p, true), Insert(p, commit), Read(p, true)]
  }

  function Attempts<R>(p: nat, token: nat, commit: Commit): seq<Action<R>> {
    if commit == Acked then [Activate(p), Begin(p, token, commit)]
    else [Activate(p), Begin(p, token, commit), Read(p, true)]
  }

  function Completes<R>(p: nat, commit: Commit): seq<Action<R>> {
    if commit == Acked then [Complete(p, commit)] else [Complete(p, commit), Read(p, true), Read(p, true)]
  }

  function Fails<R>(p: nat, commit: Commit): seq<Action<R>> {
    if commit == Acked then [Fail(p, commit)] else [Fail(p, commit), Read(p, true), Read(p, true)]
  }

  lemma ClaimsFirst<R>(s: System<R>, p: nat, request: R, commit: Commit)
    requires Free(s, p) && s.receipt.None? && commit != NotCommitted
    ensures var receipt := Receipt(request, None, false);
            Step(Step(s, Request(p, request)), Claim(p, commit))
            == Move(s.(receipt := Some(receipt)), p, if commit == Acked then Working(Checking, receipt) else ClaimRereading(request))
  {
    hide CompleteStep, FailStep, ReadStep;
  }

  lemma ReadsClaimed<R>(s: System<R>, p: nat, request: R)
    requires p in s.processes && s.processes[p].phase == ClaimRereading(request)
    requires s.receipt.Some? && s.receipt.value.request == request
    ensures Step(s, Read(p, true)) == Move(s, p, Working(Checking, s.receipt.value))
  {
    hide CompleteStep, FailStep, ReadRow, ReadReceipt;
  }

  lemma ClaimsReceipt<R>(s: System<R>, p: nat, request: R, commit: Commit)
    requires Free(s, p) && s.receipt.None? && commit != NotCommitted
    ensures var receipt := Receipt(request, None, false);
            Run(s, Claims(p, request, commit)) == Move(s.(receipt := Some(receipt)), p, Working(Checking, receipt))
  {
    hide Step, Run;
    ClaimsFirst(s, p, request, commit);
    if commit == Acked {
      RunOf2(s, Request(p, request), Claim(p, commit));
    } else {
      RunOf3(s, Request(p, request), Claim(p, commit), Read(p, true));
      ReadsClaimed(Step(Step(s, Request(p, request)), Claim(p, commit)), p, request);
    }
  }

  lemma ReadsNoRow<R>(s: System<R>, p: nat, receipt: Receipt<R>)
    requires p in s.processes && s.status == Missing
    ensures s.processes[p].phase == Working(Checking, receipt) ==>
              Step(s, Read(p, true)) == Move(s, p, Working(Ensuring, receipt))
    ensures s.processes[p].phase == Working(Ensuring, receipt) ==>
              Step(s, Read(p, true)) == Move(s, p, Working(Inserting, receipt))
  {
    hide CompleteStep, FailStep, ReadRow, ReadReceipt;
  }

  lemma InsertsOnce<R>(s: System<R>, p: nat, receipt: Receipt<R>, commit: Commit)
    requires p in s.processes && s.processes[p].phase == Working(Inserting, receipt) && s.status == Missing
    requires commit != NotCommitted
    ensures Step(s, Insert(p, commit))
            == Move(s.(status := Starting), p, Working(if commit == Acked then Activating else InsertRereading, receipt))
  {
    hide CompleteStep, FailStep, ReadStep;
  }

  lemma ReadsInsertedRow<R>(s: System<R>, p: nat, receipt: Receipt<R>)
    requires p in s.processes && s.processes[p].phase == Working(InsertRereading, receipt) && s.status == Starting
    ensures Step(s, Read(p, true)) == Move(s, p, Working(Activating, receipt))
  {
    hide CompleteStep, FailStep, ReadRow, ReadReceipt;
  }

  lemma InsertsRow<R>(s: System<R>, p: nat, receipt: Receipt<R>, commit: Commit)
    requires p in s.processes && s.processes[p].phase == Working(Checking, receipt) && s.status == Missing
    requires commit != NotCommitted
    ensures Run(s, Inserts(p, commit)) == Move(s.(status := Starting), p, Working(Activating, receipt))
  {
    hide Step, Run;
    ReadsNoRow(s, p, receipt);
    var ensuring := Move(s, p, Working(Ensuring, receipt));
    ReadsNoRow(ensuring, p, receipt);
    var inserting := Move(s, p, Working(Inserting, receipt));
    assert Step(ensuring, Read(p, true)) == inserting;
    InsertsOnce(inserting, p, receipt, commit);
    var inserted := Step(inserting, Insert(p, commit));
    if commit == Acked {
      RunOf3(s, Read(p, true), Read(p, true), Insert(p, commit));
    } else {
      RunOf4(s, Read(p, true), Read(p, true), Insert(p, commit), Read(p, true));
      ReadsInsertedRow(inserted, p, receipt);
    }
  }

  lemma ActivatesByReceipt<R>(s: System<R>, p: nat, receipt: Receipt<R>)
    requires p in s.processes && !s.processes[p].handle && s.processes[p].phase == Working(Activating, receipt)
    ensures Step(s, Activate(p)) == Move(s, p, Working(if receipt.attempt.None? then Beginning else Resuming, receipt))
  {
    hide CompleteStep, FailStep, ReadStep;
  }

  lemma BeginsOnce<R>(s: System<R>, p: nat, token: nat, commit: Commit)
    requires p in s.processes && s.receipt.Some? && s.receipt.value.attempt.None?
    requires s.processes[p].phase == Working(Beginning, s.receipt.value) && token !in s.tokens && commit != NotCommitted
    ensures var receipt := s.receipt.value.(attempt := Some(token));
            Step(s, Begin(p, token, commit))
            == Move(s.(receipt := Some(receipt), tokens := s.tokens + {token}), p,
                    if commit == Acked then Working(Creating(token), receipt)
                    else Working(BeginRereading(token), s.receipt.value))
  {
    hide CompleteStep, FailStep, ReadStep;
  }

  lemma ReadsOwnAttempt<R>(s: System<R>, p: nat, token: nat, copy: Receipt<R>)
    requires p in s.processes && s.processes[p].phase == Working(BeginRereading(token), copy)
    requires s.receipt.Some? && s.receipt.value.attempt == Some(token)
    ensures Step(s, Read(p, true)) == Move(s, p, Working(Creating(token), s.receipt.value))
  {
    hide CompleteStep, FailStep, ReadRow, ReadReceipt;
  }

  lemma AttemptsOnce<R>(s: System<R>, p: nat, token: nat, commit: Commit)
    requires p in s.processes && !s.processes[p].handle && s.receipt.Some? && s.receipt.value.attempt.None?
    requires s.processes[p].phase == Working(Activating, s.receipt.value) && token !in s.tokens && commit != NotCommitted
    ensures var receipt := s.receipt.value.(attempt := Some(token));
            Run(s, Attempts(p, token, commit))
            == Move(s.(receipt := Some(receipt), tokens := s.tokens + {token}), p, Working(Creating(token), receipt))
  {
    hide Step, Run;
    ActivatesByReceipt(s, p, s.receipt.value);
    var activated := Step(s, Activate(p));
    BeginsOnce(activated, p, token, commit);
    if commit == Acked {
      RunOf2(s, Activate(p), Begin(p, token, commit));
    } else {
      RunOf3(s, Activate(p), Begin(p, token, commit), Read(p, true));
      ReadsOwnAttempt(Step(activated, Begin(p, token, commit)), p, token, s.receipt.value);
    }
  }

  /** The starting row and its receipt, with an attempt that this handler knows. */
  predicate Started<R(==)>(s: System<R>, p: nat, stage: Stage) {
    && p in s.processes && s.status == Starting && s.receipt.Some? && s.receipt.value.attempt.Some? && !s.receipt.value.completed
    && s.processes[p].phase == Working(stage, s.receipt.value)
  }

  lemma CompleteSettles<R>(s: System<R>, p: nat, commit: Commit)
    requires Started(s, p, Completing) && commit != NotCommitted
    ensures var settled := s.(status := Live, receipt := Some(s.receipt.value.(completed := true)));
            Step(s, Complete(p, commit))
            == if commit == Acked then Retain(settled, p, Answer(Live))
               else Move(settled, p, Working(ReconcilingRow(ToComplete), s.receipt.value))
  {
    hide FailStep, ReadStep;
  }

  lemma ReconcilesLive<R>(s: System<R>, p: nat, receipt: Receipt<R>)
    requires p in s.processes && s.processes[p].phase == Working(ReconcilingRow(ToComplete), receipt)
    requires s.status == Live && s.receipt.Some? && s.receipt.value.completed
    ensures Step(Step(s, Read(p, true)), Read(p, true)) == Retain(s, p, Answer(Live))
  {
    hide CompleteStep, FailStep;
  }

  lemma CompletesLive<R>(s: System<R>, p: nat, commit: Commit)
    requires Started(s, p, Completing) && commit != NotCommitted
    ensures Run(s, Completes(p, commit))
            == Retain(s.(status := Live, receipt := Some(s.receipt.value.(completed := true))), p, Answer(Live))
  {
    CompleteSettles(s, p, commit);
    hide Step, Run;
    if commit == Acked {
      RunOf1(s, Complete(p, commit));
    } else {
      RunOf3(s, Complete(p, commit), Read(p, true), Read(p, true));
      ReconcilesLive(Step(s, Complete(p, commit)), p, s.receipt.value);
    }
  }

  lemma FailSettles<R>(s: System<R>, p: nat, commit: Commit)
    requires Started(s, p, Failing) && commit != NotCommitted
    ensures var settled := s.(status := Status.Failed, receipt := Some(s.receipt.value.(completed := true)));
            Step(s, Fail(p, commit))
            == Move(settled, p, if commit == Acked then Returned(Answer(Status.Failed))
                                else Working(ReconcilingRow(ToFail), s.receipt.value))
  {
    hide CompleteStep, ReadStep;
  }

  /** Its two reads find the session failed. */
  lemma ReconcilesFailed<R>(s: System<R>, p: nat, receipt: Receipt<R>)
    requires p in s.processes && s.processes[p].phase == Working(ReconcilingRow(ToFail), receipt)
    requires s.status == Status.Failed && s.receipt.Some? && s.receipt.value.completed
    ensures Step(Step(s, Read(p, true)), Read(p, true)) == Return(s, p, Answer(Status.Failed))
  {
    hide CompleteStep, FailStep;
  }

  lemma FailsForGood<R>(s: System<R>, p: nat, commit: Commit)
    requires Started(s, p, Failing) && commit != NotCommitted
    ensures Run(s, Fails(p, commit))
            == Return(s.(status := Status.Failed, receipt := Some(s.receipt.value.(completed := true))), p,
                      Answer(Status.Failed))
  {
    FailSettles(s, p, commit);
    hide Step, Run;
    if commit == Acked {
      RunOf1(s, Fail(p, commit));
    } else {
      RunOf3(s, Fail(p, commit), Read(p, true), Read(p, true));
      ReconcilesFailed(Step(s, Fail(p, commit)), p, s.receipt.value);
    }
  }

  lemma CreatesSession<R>(s: System<R>, p: nat, created: CreateOutcome)
    requires p in s.processes && s.processes[p].phase.Working? && s.processes[p].phase.stage.Creating?
    ensures var t := Step(s, Create(p, created));
            t == Move(s.(creates := s.creates + [s.processes[p].phase.stage.token],
                         sdkExists := created != NotCreated || s.sdkExists), p,
                      Working(if created == Created then Completing else ResumingCreated, s.processes[p].phase.receipt))
  {
  }

  lemma ResumesSession<R>(s: System<R>, p: nat, stage: Stage)
    requires Started(s, p, stage) && (stage == Resuming || stage == ResumingCreated)
    ensures s.sdkExists ==> Step(s, Resume(p, Resumed)) == Move(s, p, Working(Completing, s.receipt.value))
    ensures !s.sdkExists ==> Step(s, Resume(p, ResumeMissing)) == Move(s, p, Working(Failing, s.receipt.value))
    ensures Step(s, Resume(p, ResumeFailed)) == Move(s, p, Returned(ActivationFailed))
  {
  }

  /** The session after the SDK was asked once, and what became of it. */
  predicate Settled<R(==)>(s: System<R>, t: System<R>, p: nat, request: R, token: nat, live: bool) {
    && t.receipt == Some(Receipt(request, Some(token), true)) && t.status == (if live then Live else Status.Failed)
    && t.creates == s.creates + [token] && t.sdkExists == (live || s.sdkExists) && t.tokens == s.tokens + {token}
    && t.processes == s.processes[p := Process(Returned(Answer(t.status)), live)]
  }

  // A creation that no one else disturbs asks the SDK once and goes live, whichever acknowledgements are lost: the caller
  // is answered with the live session.
  lemma NewSessionGoesLive<R(!new)>(s: System<R>, p: nat, request: R, token: nat,
                                    claim: Commit, insert: Commit, begin: Commit, complete: Commit)
    requires Free(s, p) && !s.processes[p].handle && s.receipt.None? && s.status == Missing && token !in s.tokens
    requires claim != NotCommitted && insert != NotCommitted && begin != NotCommitted && complete != NotCommitted
    ensures Settled(s, Run(s, Claims(p, request, claim) + Inserts(p, insert) + Attempts(p, token, begin)
                              + [Create(p, Created)] + Completes(p, complete)), p, request, token, true)
  {
    var creating := ReachesCreating(s, p, request, token, claim, insert, begin);
    var script := Claims(p, request, claim) + Inserts(p, insert) + Attempts(p, token, begin);
    CreatesSession(creating, p, Created);
    var created := Step(creating, Create(p, Created));
    CompletesLive(created, p, complete);
    hide Run, Step, Claims, Inserts, Attempts, Completes;
    RunExtends(s, script, Create(p, Created));
    RunConcatenates(s, script + [Create(p, Created)], Completes(p, complete));
  }

  lemma ReachesCreating<R>(s: System<R>, p: nat, request: R, token: nat, claim: Commit, insert: Commit, begin: Commit)
    returns (t: System<R>)
    requires Free(s, p) && !s.processes[p].handle && s.receipt.None? && s.status == Missing && token !in s.tokens
    requires claim != NotCommitted && insert != NotCommitted && begin != NotCommitted
    ensures t == Run(s, Claims(p, request, claim) + Inserts(p, insert) + Attempts(p, token, begin))
    ensures var receipt := Receipt(request, Some(token), false);
            t == s.(receipt := Some(receipt), status := Starting, tokens := s.tokens + {token},
                    processes := s.processes[p := Process(Working(Creating(token), receipt), false)])
  {
    hide Step, Run, Claims, Inserts, Attempts;
    ClaimsReceipt(s, p, request, claim);
    var claimed := Run(s, Claims(p, request, claim));
    InsertsRow(claimed, p, Receipt(request, None, false), insert);
    var inserted := Run(claimed, Inserts(p, insert));
    AttemptsOnce(inserted, p, token, begin);
    RunConcatenates(s, Claims(p, request, claim), Inserts(p, insert));
    RunConcatenates(s, Claims(p, request, claim) + Inserts(p, insert), Attempts(p, token, begin));
    t := Run(inserted, Attempts(p, token, begin));
  }

  lemma CreatesNothing<R>(s: System<R>, p: nat, token: nat, fail: Commit)
    requires Started(s, p, Creating(token)) && !s.sdkExists && fail != NotCommitted
    ensures Run(s, [Create(p, NotCreated), Resume(p, ResumeMissing)] + Fails(p, fail))
            == Return(s.(creates := s.creates + [token], status := Status.Failed,
                         receipt := Some(s.receipt.value.(completed := true))), p, Answer(Status.Failed))
  {
    hide Run, Step, Fails;
    CreatesSession(s, p, NotCreated);
    var asked := Step(s, Create(p, NotCreated));
    ResumesSession(asked, p, ResumingCreated);
    var missing := Step(asked, Resume(p, ResumeMissing));
    RunOf2(s, Create(p, NotCreated), Resume(p, ResumeMissing));
    FailsForGood(missing, p, fail);
    RunConcatenates(s, [Create(p, NotCreated), Resume(p, ResumeMissing)], Fails(p, fail));
  }

  // When the SDK creates nothing, the resumption finds nothing, and the session fails for good, in one commit with its
  // receipt.
  lemma FailedCreationIsRecorded<R(!new)>(s: System<R>, p: nat, request: R, token: nat,
                                          claim: Commit, insert: Commit, begin: Commit, fail: Commit)
    requires Free(s, p) && !s.processes[p].handle && s.receipt.None? && s.status == Missing && token !in s.tokens
    requires claim != NotCommitted && insert != NotCommitted && begin != NotCommitted && fail != NotCommitted && !s.sdkExists
    ensures Settled(s, Run(s, Claims(p, request, claim) + Inserts(p, insert) + Attempts(p, token, begin)
                              + ([Create(p, NotCreated), Resume(p, ResumeMissing)] + Fails(p, fail))),
                    p, request, token, false)
  {
    hide Run, Step, Claims, Inserts, Attempts, Fails;
    var creating := ReachesCreating(s, p, request, token, claim, insert, begin);
    CreatesNothing(creating, p, token, fail);
    RunConcatenates(s, Claims(p, request, claim) + Inserts(p, insert) + Attempts(p, token, begin),
                    [Create(p, NotCreated), Resume(p, ResumeMissing)] + Fails(p, fail));
  }

  // ---- A restart in the middle ----

  lemma RestoresReceipt<R>(s: System<R>, p: nat)
    requires Free(s, p) && s.status == Starting && s.receipt.Some?
    ensures Step(s, RestoreStarting(p)) == Move(s, p, RestoringReceipt)
    ensures Step(Move(s, p, RestoringReceipt), Read(p, true)) == Move(s, p, Working(Activating, s.receipt.value))
  {
    hide CompleteStep, FailStep, ReadRow, ReadReceipt;
  }

  lemma RestoresActivating<R>(s: System<R>, p: nat)
    requires Free(s, p) && !s.processes[p].handle && s.status == Starting && s.receipt.Some?
    ensures Run(s, [RestoreStarting(p), Read(p, true)]) == Move(s, p, Working(Activating, s.receipt.value))
    ensures s.receipt.value.attempt.Some? ==>
              Run(s, [RestoreStarting(p), Read(p, true), Activate(p)]) == Move(s, p, Working(Resuming, s.receipt.value))
  {
    hide Step, Run;
    RunOf2(s, RestoreStarting(p), Read(p, true));
    RunOf3(s, RestoreStarting(p), Read(p, true), Activate(p));
    RestoresReceipt(s, p);
    ActivatesByReceipt(Move(s, p, Working(Activating, s.receipt.value)), p, s.receipt.value);
  }

  // A process that restores a starting session whose attempt is recorded does not ask the SDK again: the session goes live
  // if the SDK has it, and fails for good if it does not.
  lemma RestoredSessionSettles<R(!new)>(actions: seq<Action<R>>, p: nat, commit: Commit)
    requires commit != NotCommitted
    requires var s := Run(New<R>(), actions);
             Free(s, p) && !s.processes[p].handle && s.status == Starting && s.receipt.Some? && s.receipt.value.attempt.Some?
    ensures var s := Run(New<R>(), actions);
            var resumption := if s.sdkExists then Resumed else ResumeMissing;
            var last := if s.sdkExists then Completes(p, commit) else Fails(p, commit);
            var t := Run(s, [RestoreStarting(p), Read(p, true), Activate(p)] + [Resume(p, resumption)] + last);
            && t == s.(receipt := Some(s.receipt.value.(completed := true)),
                       status := if s.sdkExists then Live else Status.Failed,
                       processes := s.processes[p := Process(Returned(Answer(t.status)), s.sdkExists)])
  {
    var s := Run(New<R>(), actions);
    PhasesArePaired(actions);
    hide Run, Step, Completes, Fails;
    RestoresActivating(s, p);
    var first := [RestoreStarting(p), Read(p, true), Activate(p)];
    var resuming := Run(s, first);
    ResumesSession(resuming, p, Resuming);
    var resumption := if s.sdkExists then Resumed else ResumeMissing;
    var resumed := Step(resuming, Resume(p, resumption));
    RunExtends(s, first, Resume(p, resumption));
    if s.sdkExists {
      CompletesLive(resumed, p, commit);
      RunConcatenates(s, first + [Resume(p, resumption)], Completes(p, commit));
    } else {
      FailsForGood(resumed, p, commit);
      RunConcatenates(s, first + [Resume(p, resumption)], Fails(p, commit));
    }
  }

  // Before an attempt is recorded, the restoring process asks the SDK itself, once.
  lemma RestoredSessionIsCreated<R(!new)>(s: System<R>, p: nat, token: nat, begin: Commit, complete: Commit)
    requires Free(s, p) && !s.processes[p].handle && s.status == Starting && s.receipt.Some? && !s.receipt.value.completed
    requires s.receipt.value.attempt.None? && token !in s.tokens && begin != NotCommitted && complete != NotCommitted
    ensures Settled(s, Run(s, [RestoreStarting(p), Read(p, true)] + Attempts(p, token, begin) + [Create(p, Created)]
                              + Completes(p, complete)), p, s.receipt.value.request, token, true)
  {
    var first := [RestoreStarting(p), Read(p, true)];
    RestoresActivating(s, p);
    var activating := Run(s, first);
    AttemptsOnce(activating, p, token, begin);
    var creating := Run(activating, Attempts(p, token, begin));
    CreatesSession(creating, p, Created);
    var created := Step(creating, Create(p, Created));
    CompletesLive(created, p, complete);
    hide Run, Step, Attempts, Completes;
    RunConcatenates(s, first, Attempts(p, token, begin));
    RunExtends(s, first + Attempts(p, token, begin), Create(p, Created));
    RunConcatenates(s, first + Attempts(p, token, begin) + [Create(p, Created)], Completes(p, complete));
  }

  // ---- A completion that did not commit, and the retry of the request ----

  lemma CompleteNotCommitted<R>(s: System<R>, p: nat)
    requires Started(s, p, Completing)
    ensures Step(s, Complete(p, NotCommitted)) == Move(s, p, Working(ReconcilingRow(ToComplete), s.receipt.value))
  {
    hide FailStep, ReadStep;
  }

  lemma ReconcilesStarting<R>(s: System<R>, p: nat, receipt: Receipt<R>)
    requires p in s.processes && s.processes[p].phase == Working(ReconcilingRow(ToComplete), receipt)
    requires s.status == Starting && s.receipt.Some? && !s.receipt.value.completed
    ensures Step(Step(s, Read(p, true)), Read(p, true)) == Retain(s, p, ActivationFailed)
  {
    hide CompleteStep, FailStep;
  }

  lemma CompletionUncommitted<R>(s: System<R>, p: nat)
    requires Started(s, p, Completing)
    ensures Run(s, Completes(p, NotCommitted)) == Retain(s, p, ActivationFailed)
  {
    hide Step, Run;
    RunOf3(s, Complete(p, NotCommitted), Read(p, true), Read(p, true));
    CompleteNotCommitted(s, p);
    ReconcilesStarting(Move(s, p, Working(ReconcilingRow(ToComplete), s.receipt.value)), p, s.receipt.value);
  }

  lemma ActivatesByHandle<R>(s: System<R>, p: nat, receipt: Receipt<R>)
    requires p in s.processes && s.processes[p].handle && s.processes[p].phase == Working(Activating, receipt)
    ensures Step(s, Activate(p)) == Move(s, p, Working(Completing, receipt))
  {
    hide CompleteStep, FailStep, ReadStep;
  }

  lemma RetryReaches<R>(s: System<R>, p: nat, request: R)
    requires Free(s, p) && s.processes[p].handle && s.status == Starting
    requires s.receipt.Some? && s.receipt.value.request == request && !s.receipt.value.completed
    ensures Run(s, [Request(p, request), Claim(p, Acked), Read(p, true)] + [Read(p, true), Read(p, true), Activate(p)])
            == Move(s, p, Working(Completing, s.receipt.value))
  {
    hide Run, Step;
    RepeatReadsReceipt(s, p, request, Acked);
    RunOf3(s, Request(p, request), Claim(p, Acked), Read(p, true));
    var checking := Move(s, p, Working(Checking, s.receipt.value));
    RunOf3(checking, Read(p, true), Read(p, true), Activate(p));
    RunConcatenates(s, [Request(p, request), Claim(p, Acked), Read(p, true)], [Read(p, true), Read(p, true), Activate(p)]);
    FindsStarting(checking, p, s.receipt.value);
    ActivatesByHandle(Move(checking, p, Working(Activating, s.receipt.value)), p, s.receipt.value);
  }

  lemma FindsStarting<R>(s: System<R>, p: nat, receipt: Receipt<R>)
    requires p in s.processes && s.processes[p].phase == Working(Checking, receipt) && s.status == Starting && !receipt.completed
    ensures Step(Step(s, Read(p, true)), Read(p, true)) == Move(s, p, Working(Activating, receipt))
  {
    hide CompleteStep, FailStep, ReadRow, ReadReceipt;
  }

  // A completion that did not commit fails the caller but keeps the bridge's handle, so that the retried request completes
  // the same session without asking the SDK again.
  lemma RetryCompletes<R>(s: System<R>, p: nat, request: R, complete: Commit)
    requires Started(s, p, Completing) && s.receipt.value.request == request && complete != NotCommitted
    ensures var script := Completes(p, NotCommitted)
                          + ([Request(p, request), Claim(p, Acked), Read(p, true)] + [Read(p, true), Read(p, true), Activate(p)])
                          + Completes(p, complete);
            Run(s, script) == Retain(s.(status := Live, receipt := Some(s.receipt.value.(completed := true))), p, Answer(Live))
  {
    CompletionUncommitted(s, p);
    var failed := Run(s, Completes(p, NotCommitted));
    RetryReaches(failed, p, request);
    hide Run, Step, Completes;
    var retry := [Request(p, request), Claim(p, Acked), Read(p, true)] + [Read(p, true), Read(p, true), Activate(p)];
    var completing := Run(failed, retry);
    CompletesLive(completing, p, complete);
    RunConcatenates(s, Completes(p, NotCommitted), retry);
    RunConcatenates(s, Completes(p, NotCommitted) + retry, Completes(p, complete));
  }

  // ---- Verdicts and events ----

  // What the two verdicts that fit the store are answered with: a committed one with the session as the first read saw
  // it, retained unless it is over, or to a handler that meant to fail it only if it failed; an uncommitted one with a
  // failure to activate.
  lemma VerdictIsAnswered<R>(s: System<R>, p: nat)
    requires p in s.processes && s.processes[p].phase.Working? && s.processes[p].phase.stage.ReconcilingReceipt?
    requires s.receipt.Some?
    ensures var stage := s.processes[p].phase.stage;
            var t := Step(s, Read(p, true));
            match Verdict(stage.row, s.receipt.value.completed)
            case None => true
            case Some(false) => t == if stage.purpose == ToComplete then Retain(s, p, ActivationFailed) else Return(s, p, ActivationFailed)
            case Some(true) =>
              t == if stage.purpose == ToFail then Return(s, p, if stage.row == Status.Failed then Answer(stage.row) else ActivationFailed)
                   else if stage.row in {Status.Failed, Ended} then Return(s, p, Answer(stage.row))
                   else Retain(s, p, Answer(stage.row))
  {
    hide CompleteStep, FailStep;
  }

  // Wherever a handler finds the session out of starting, it answers with it as it is.
  lemma FoundSessionIsAnswered<R>(s: System<R>, p: nat)
    requires p in s.processes && s.processes[p].phase.Working? && s.status !in {Missing, Starting}
    requires s.processes[p].phase.stage in {Checking, Ensuring, InsertRereading}
    ensures Step(s, Read(p, true)) == Return(s, p, Answer(s.status))
  {
    hide CompleteStep, FailStep, ReadRow, ReadReceipt;
  }

  // A read that fails ends the handler with a store failure, or a failure to activate once the row is there; a completion
  // keeps the bridge's handle.
  lemma FailedReadsAnswer<R>(s: System<R>, p: nat)
    requires p in s.processes && (s.processes[p].phase.ClaimRereading? || s.processes[p].phase.RestoringReceipt?
                                  || s.processes[p].phase.Working?)
    ensures var phase, t := s.processes[p].phase, Step(s, Read(p, false));
            && (phase.ClaimRereading? || phase.RestoringReceipt?
                || (phase.Working? && phase.stage in {Checking, Ensuring, InsertRereading}) ==>
                  t == Return(s, p, StoreFailed))
            && (phase.Working? && phase.stage.BeginRereading? ==> t == Return(s, p, ActivationFailed))
            && (phase.Working? && (phase.stage.ReconcilingRow? || phase.stage.ReconcilingReceipt?) ==>
                  t == if phase.stage.purpose == ToComplete then Retain(s, p, ActivationFailed)
                       else Return(s, p, ActivationFailed))
  {
    hide CompleteStep, FailStep, ReadStep;
  }

  // A crash loses the handler and its bridge handle; what is recorded stays, and so does what the SDK has.
  lemma CrashForgets<R>(s: System<R>, p: nat)
    ensures Step(s, Crash(p)) == s.(processes := s.processes - {p})
    ensures p !in s.processes ==> Step(s, Boot(p)) == s.(processes := s.processes[p := Process(Idle, false)])
  {
    hide HandlerStep, SessionStep;
  }

  // The other operations under the session's lock: attaching a handle to a live session, ending it, the bridge's loss of
  // it, and its quarantine, which fails it with its receipt in one commit unless it has ended.
  lemma EventsMoveSession<R>(s: System<R>, p: nat, commit: Commit)
    requires Free(s, p)
    ensures s.status == Live ==>
              && Step(s, AttachLive(p)) == s.(processes := s.processes[p := Process(Idle, true)])
              && Step(s, EndSession(p))
                 == s.(status := Ended, processes := s.processes[p := s.processes[p].(handle := false)])
              && (s.processes[p].handle ==> Step(s, BridgeFailed(p)) == s.(status := Status.Failed))
    ensures s.status != Missing && s.receipt.Some? && commit != NotCommitted ==>
              Step(s, Quarantine(p, commit))
              == s.(status := if s.status == Ended then Ended else Status.Failed,
                    receipt := Some(s.receipt.value.(completed := true)),
                    processes := s.processes[p := s.processes[p].(handle := false)])
  {
  }
}
