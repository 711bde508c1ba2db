/** What a caller of a keyed submission is told, and what is recorded and sent for it (services/copilot-adapter/handlers.go). */
module CopilotReplies {
  import opened Wrappers
  import opened CopilotPrompts

  /** How the reads, writes and calls of one handler turn out. */
  datatype Luck = Luck(read: bool, available: bool, open: Commit, mark: Commit, reread: bool, outcome: SendOutcome,
                       compensate: Commit, accept: Commit, readAccepted: bool)

  /** Everything a handler may do, in order; a step that is not the handler's next one does nothing. */
  function Beginning<P>(p: nat, prompt: P, luck: Luck): seq<Action<P>> {
    [Submit(p, prompt), Replay(p, luck.read), Inspect(p, luck.available), Open(p, luck.open)]
  }

  function Delivering<P>(p: nat, luck: Luck): seq<Action<P>> {
    [MarkUnknown(p, luck.mark), Reread(p, luck.reread), Send(p, luck.outcome), Compensate(p, luck.compensate),
     MarkAccepted(p, luck.accept), RereadAccepted(p, luck.readAccepted)]
  }

  /** The handler returned with this reply, and left this turn and these sent prompts. */
  predicate Ends<P(==)>(s: System<P>, t: System<P>, p: nat, prompt: P, turn: Option<Turn<P>>, sent: seq<P>, reply: Reply) {
    t == s.(turn := turn, sent := sent, processes := s.processes[p := Returned(prompt, reply)])
  }

  predicate Free<P>(s: System<P>, p: nat) {
    p in s.processes && (s.processes[p].Idle? || s.processes[p].Returned?)
  }

  lemma RunOf2<P>(s: System<P>, a: Action<P>, b: Action<P>)
    ensures Run(s, [a, b]) == Step(Step(s, a), b)
  {
    assert Run(s, []) == s;
    hide Step, Run;
    RunExtends(s, [], a);
    RunExtends(s, [a], b);
    assert [] + [a] == [a] && [a] + [b] == [a, b];
  }

  lemma RunOf4<P>(s: System<P>, a: Action<P>, b: Action<P>, c: Action<P>, d: Action<P>)
    ensures Run(s, [a, b, c, d]) == Step(Step(Step(Step(s, a), b), c), d)
  {
    hide Step, Run;
    RunOf2(s, a, b);
    RunExtends(s, [a, b], c);
    RunExtends(s, [a, b, c], d);
    assert [a, b] + [c] == [a, b, c] && [a, b, c] + [d] == [a, b, c, d];
  }

  lemma RunOf6<P>(s: System<P>, a: Action<P>, b: Action<P>, c: Action<P>, d: Action<P>, e: Action<P>, f: Action<P>)
    ensures Run(s, [a, b, c, d, e, f]) == Step(Step(Step(Step(Step(Step(s, a), b), c), d), e), f)
  {
    RunOf4(s, a, b, c, d);
    hide Step, Run;
    RunExtends(s, [a, b, c, d], e);
    RunExtends(s, [a, b, c, d, e], f);
    assert [a, b, c, d] + [e] == [a, b, c, d, e] && [a, b, c, d, e] + [f] == [a, b, c, d, e, f];
  }

  /** The turn that a first submission opens. */
  function Opened<P>(prompt: P): Option<Turn<P>> {
    Some(Turn(prompt, Pending, Queued))
  }

  /** A returned handler does nothing more. */
  lemma ReturnedStays<P>(s: System<P>, action: Action<P>, p: nat)
    requires p in s.processes && s.processes[p].Returned? && Moves(action, p)
    requires !action.Boot? && !action.Crash? && !action.Submit?
    ensures Step(s, action) == s
  {
  }

  lemma ReplayEnds<P>(s: System<P>, p: nat, prompt: P, ok: bool)
    requires Free(s, p)
    ensures var t := Step(Step(s, Submit(p, prompt)), Replay(p, ok));
            if !ok then Ends(s, t, p, prompt, s.turn, s.sent, StoreFailed)
            else if s.turn.None? then t == Move(s, p, Checking(prompt))
            else if s.turn.value.prompt != prompt then Ends(s, t, p, prompt, s.turn, s.sent, KeyReused)
            else if s.turn.value.delivery in {Accepted, Unknown} then Ends(s, t, p, prompt, s.turn, s.sent, Answered)
            else if s.turn.value.delivery == Failed then Ends(s, t, p, prompt, s.turn, s.sent, SendFailed)
            else t == Move(s, p, Checking(prompt))
  {
  }

  lemma OpenEnds<P>(s: System<P>, p: nat, prompt: P, available: bool, open: Commit)
    requires p in s.processes && s.processes[p] == Checking(prompt)
    requires s.turn.None? || (s.turn.value.prompt == prompt && s.turn.value.delivery == Pending)
    ensures var t := Step(Step(s, Inspect(p, available)), Open(p, open));
            if s.ended || !available then Ends(s, t, p, prompt, s.turn, s.sent, SessionUnavailable)
            else if s.turn.Some? && s.turn.value.status != Queued then
              Ends(s, t, p, prompt, s.turn, s.sent, if open == Acked then SendFailed else StoreFailed)
            else if open == NotCommitted then Ends(s, t, p, prompt, s.turn, s.sent, StoreFailed)
            else if open == AckLost then Ends(s, t, p, prompt, Opened(prompt), s.sent, StoreFailed)
            else t == Move(s.(turn := Opened(prompt)), p, Marking(prompt))
  {
    if s.turn.Some? && s.turn.value.status == Queued {
      assert s.turn == Opened(prompt);
    }
  }

  /** Alone from its opening on, a handler sends exactly once its mark committed, and records what became of it. */
  predicate Delivers<P(==)>(s: System<P>, t: System<P>, p: nat, prompt: P, luck: Luck) {
    var unknown := Some(Turn(prompt, Unknown, Queued));
    if luck.mark == NotCommitted then Ends(s, t, p, prompt, Opened(prompt), s.sent, StoreFailed)
    else if luck.mark == AckLost && !luck.reread then Ends(s, t, p, prompt, unknown, s.sent, StoreFailed)
    else
      match luck.outcome
      case Rejected =>
        Ends(s, t, p, prompt, if luck.compensate == NotCommitted then unknown else Some(Turn(prompt, Failed, Terminal)),
             s.sent + [prompt], SendFailed)
      case Unresolved => Ends(s, t, p, prompt, unknown, s.sent + [prompt], Answered)
      case Delivered =>
        Ends(s, t, p, prompt, if luck.accept == NotCommitted then unknown else Some(Turn(prompt, Accepted, Queued)),
             s.sent + [prompt],
             if luck.accept == Acked || (luck.accept == AckLost && luck.readAccepted) then Answered else StoreFailed)
  }

  lemma MarkSends<P>(s: System<P>, p: nat, prompt: P, mark: Commit, reread: bool)
    requires p in s.processes && s.processes[p] == Marking(prompt) && s.turn == Opened(prompt)
    ensures var t := Step(Step(s, MarkUnknown(p, mark)), Reread(p, reread));
            if mark == NotCommitted then Ends(s, t, p, prompt, s.turn, s.sent, StoreFailed)
            else if mark == AckLost && !reread then Ends(s, t, p, prompt, Some(Turn(prompt, Unknown, Queued)), s.sent, StoreFailed)
            else t == Move(s.(turn := Some(Turn(prompt, Unknown, Queued))), p, Sending(prompt))
  {
  }

  lemma RejectedFails<P>(s: System<P>, p: nat, prompt: P, compensate: Commit)
    requires p in s.processes && s.processes[p] == Sending(prompt) && s.turn == Some(Turn(prompt, Unknown, Queued))
    ensures Ends(s, Step(Step(s, Send(p, Rejected)), Compensate(p, compensate)), p, prompt,
                 if compensate == NotCommitted then s.turn else Some(Turn(prompt, Failed, Terminal)), s.sent + [prompt], SendFailed)
  {
  }

  lemma DeliveredIsAccepted<P>(s: System<P>, p: nat, prompt: P, accept: Commit, readAccepted: bool)
    requires p in s.processes && s.processes[p] == Accepting(prompt) && s.turn == Some(Turn(prompt, Unknown, Queued))
    ensures Ends(s, Step(Step(s, MarkAccepted(p, accept)), RereadAccepted(p, readAccepted)), p, prompt,
                 if accept == NotCommitted then s.turn else Some(Turn(prompt, Accepted, Queued)), s.sent,
                 if accept == Acked || (accept == AckLost && readAccepted) then Answered else StoreFailed)
  {
  }

  lemma SendMoves<P>(s: System<P>, p: nat, prompt: P, outcome: SendOutcome)
    requires p in s.processes && s.processes[p] == Sending(prompt)
    ensures outcome == Unresolved ==> Ends(s, Step(s, Send(p, outcome)), p, prompt, s.turn, s.sent + [prompt], Answered)
    ensures outcome == Delivered ==> Step(s, Send(p, outcome)) == Move(s.(sent := s.sent + [prompt]), p, Accepting(prompt))
  {
  }

  lemma CompensateWaits<P>(s: System<P>, p: nat, compensate: Commit)
    requires p in s.processes && !s.processes[p].Compensating?
    ensures Step(s, Compensate(p, compensate)) == s
  {
  }

  lemma SendSettles<P>(s: System<P>, p: nat, prompt: P, luck: Luck)
    requires p in s.processes && s.processes[p] == Sending(prompt) && s.turn == Some(Turn(prompt, Unknown, Queued))
    ensures var t := Step(Step(Step(Step(s, Send(p, luck.outcome)), Compensate(p, luck.compensate)),
                               MarkAccepted(p, luck.accept)), RereadAccepted(p, luck.readAccepted));
            Delivers(s, t, p, prompt, luck.(mark := Acked))
  {
    hide Step;
    SendMoves(s, p, prompt, luck.outcome);
    RejectedFails(s, p, prompt, luck.compensate);
    var sent := Step(s, Send(p, luck.outcome));
    var compensated := Step(sent, Compensate(p, luck.compensate));
    if luck.outcome != Rejected {
      CompensateWaits(sent, p, luck.compensate);
    }
    if luck.outcome == Delivered {
      DeliveredIsAccepted(compensated, p, prompt, luck.accept, luck.readAccepted);
    } else {
      ReturnedStays(compensated, MarkAccepted(p, luck.accept), p);
      ReturnedStays(compensated, RereadAccepted(p, luck.readAccepted), p);
    }
  }

  lemma DeliveryEnds<P>(s: System<P>, p: nat, prompt: P, luck: Luck)
    requires p in s.processes && s.processes[p] == Marking(prompt) && s.turn == Opened(prompt)
    ensures Delivers(s, Run(s, Delivering(p, luck)), p, prompt, luck)
  {
    RunOf6(s, MarkUnknown(p, luck.mark), Reread(p, luck.reread), Send(p, luck.outcome), Compensate(p, luck.compensate),
           MarkAccepted(p, luck.accept), RereadAccepted(p, luck.readAccepted));
    MarkSends(s, p, prompt, luck.mark, luck.reread);
    var marked := Step(Step(s, MarkUnknown(p, luck.mark)), Reread(p, luck.reread));
    assert marked.processes[p].Returned? ==> luck.mark == NotCommitted || (luck.mark == AckLost && !luck.reread);
    hide Step, Run;
    if marked.processes[p].Returned? {
      ReturnedStays(marked, Send(p, luck.outcome), p);
      ReturnedStays(marked, Compensate(p, luck.compensate), p);
      ReturnedStays(marked, MarkAccepted(p, luck.accept), p);
      ReturnedStays(marked, RereadAccepted(p, luck.readAccepted), p);
    } else {
      SendSettles(marked, p, prompt, luck);
      var end := Step(Step(Step(Step(marked, Send(p, luck.outcome)), Compensate(p, luck.compensate)),
                           MarkAccepted(p, luck.accept)), RereadAccepted(p, luck.readAccepted));
      SameEnd(s, marked, end, p, prompt, luck.(mark := Acked));
      SameLuck(s, end, p, prompt, luck);
    }
  }

  lemma SameLuck<P>(s: System<P>, t: System<P>, p: nat, prompt: P, luck: Luck)
    requires Delivers(s, t, p, prompt, luck.(mark := Acked))
    requires luck.mark != NotCommitted && (luck.mark == AckLost ==> luck.reread)
    ensures Delivers(s, t, p, prompt, luck)
  {
    hide Ends;
  }

  lemma ReturnedDelivers<P>(s: System<P>, p: nat, luck: Luck)
    requires p in s.processes && s.processes[p].Returned?
    ensures Run(s, Delivering(p, luck)) == s
  {
    RunOf6(s, MarkUnknown(p, luck.mark), Reread(p, luck.reread), Send(p, luck.outcome), Compensate(p, luck.compensate),
           MarkAccepted(p, luck.accept), RereadAccepted(p, luck.readAccepted));
    hide Step, Run;
    ReturnedStays(s, MarkUnknown(p, luck.mark), p);
    ReturnedStays(s, Reread(p, luck.reread), p);
    ReturnedStays(s, Send(p, luck.outcome), p);
    ReturnedStays(s, Compensate(p, luck.compensate), p);
    ReturnedStays(s, MarkAccepted(p, luck.accept), p);
    ReturnedStays(s, RereadAccepted(p, luck.readAccepted), p);
  }

  /** What the submission of a prompt ends with, by the turn it meets and the handler's luck. */
  predicate Concludes<P(==)>(s: System<P>, t: System<P>, p: nat, prompt: P, luck: Luck) {
    if !luck.read then Ends(s, t, p, prompt, s.turn, s.sent, StoreFailed)
    else if s.turn.Some? && s.turn.value.prompt != prompt then Ends(s, t, p, prompt, s.turn, s.sent, KeyReused)
    else if s.turn.Some? && s.turn.value.delivery in {Accepted, Unknown} then Ends(s, t, p, prompt, s.turn, s.sent, Answered)
    else if s.turn.Some? && s.turn.value.delivery == Failed then Ends(s, t, p, prompt, s.turn, s.sent, SendFailed)
    else if s.ended || !luck.available then Ends(s, t, p, prompt, s.turn, s.sent, SessionUnavailable)
    else if s.turn.Some? && s.turn.value.status != Queued then
      Ends(s, t, p, prompt, s.turn, s.sent, if luck.open == Acked then SendFailed else StoreFailed)
    else if luck.open == NotCommitted then Ends(s, t, p, prompt, s.turn, s.sent, StoreFailed)
    else if luck.open == AckLost then Ends(s, t, p, prompt, Opened(prompt), s.sent, StoreFailed)
    else Delivers(s, t, p, prompt, luck)
  }

  /** The handler gets as far as its opened turn. */
  predicate Opens<P(==)>(s: System<P>, t: System<P>, p: nat, prompt: P, luck: Luck) {
    && t == Move(s.(turn := Opened(prompt)), p, Marking(prompt))
    && luck.read && (s.turn.None? || s.turn == Opened(prompt)) && !s.ended && luck.available && luck.open == Acked
  }

  lemma BeginningEnds<P>(s: System<P>, p: nat, prompt: P, luck: Luck)
    requires Free(s, p)
    ensures var t := Run(s, Beginning(p, prompt, luck));
            Opens(s, t, p, prompt, luck)
            || (Concludes(s, t, p, prompt, luck) && p in t.processes && t.processes[p].Returned?)
  {
    RunOf4(s, Submit(p, prompt), Replay(p, luck.read), Inspect(p, luck.available), Open(p, luck.open));
    ReplayEnds(s, p, prompt, luck.read);
    var replayed := Step(Step(s, Submit(p, prompt)), Replay(p, luck.read));
    hide Step, Run, Delivers;
    if replayed.processes[p].Returned? {
      ReturnedStays(replayed, Inspect(p, luck.available), p);
      ReturnedStays(replayed, Open(p, luck.open), p);
    } else {
      OpenEnds(replayed, p, prompt, luck.available, luck.open);
    }
  }

  lemma OpenedConcludes<P>(s: System<P>, t: System<P>, end: System<P>, p: nat, prompt: P, luck: Luck)
    requires Opens(s, t, p, prompt, luck) && Delivers(s, end, p, prompt, luck)
    ensures Concludes(s, end, p, prompt, luck)
  {
    hide Delivers, Ends;
  }

  // From every state, a submission that no one else disturbs answers by the turn alone if that is already accepted,
  // unknown or failed, or another prompt's; otherwise it sends at most once, after its mark committed, and its reply, the
  // turn it leaves and what it sent are these.
  lemma SubmissionConcludes<P>(s: System<P>, p: nat, prompt: P, luck: Luck)
    requires Free(s, p)
    ensures Concludes(s, Run(s, Beginning(p, prompt, luck) + Delivering(p, luck)), p, prompt, luck)
  {
    RunConcatenates(s, Beginning(p, prompt, luck), Delivering(p, luck));
    BeginningEnds(s, p, prompt, luck);
    var begun := Run(s, Beginning(p, prompt, luck));
    hide Step, Run, Delivers, Concludes, Ends;
    if Opens(s, begun, p, prompt, luck) {
      DeliveryEnds(begun, p, prompt, luck);
      var end := Run(begun, Delivering(p, luck));
      SameEnd(s, begun, end, p, prompt, luck);
      OpenedConcludes(s, begun, end, p, prompt, luck);
    } else {
      ReturnedDelivers(begun, p, luck);
    }
  }

  /** Where a handler ends does not depend on the turn it opened or the phase it came from. */
  lemma SameEnd<P>(s: System<P>, started: System<P>, t: System<P>, p: nat, prompt: P, luck: Luck)
    requires Delivers(started, t, p, prompt, luck)
    requires p in started.processes
    requires started == s.(turn := started.turn, processes := s.processes[p := started.processes[p]])
    ensures Delivers(s, t, p, prompt, luck)
  {
  }

  // Beside other handlers: what a failed mark, a rejected send or a failed acceptance finds decides as it stands.
  lemma OthersDecide<P>(s: System<P>, p: nat, prompt: P)
    requires p in s.processes && s.turn.Some?
    ensures s.processes[p] == Rereading(prompt) ==>
              Step(s, Reread(p, true))
              == Move(s, p, if s.turn.value.delivery == Unknown then Sending(prompt)
                            else Returned(prompt, if s.turn.value.delivery == Accepted then Answered else StoreFailed))
    ensures s.processes[p] == Marking(prompt) && s.turn.value.delivery != Pending ==>
              Step(s, MarkUnknown(p, Acked)) == Move(s, p, Rereading(prompt))
    ensures s.processes[p] == Compensating(prompt) && (s.turn.value.delivery == Accepted || s.turn.value.status == Terminal) ==>
              Step(s, Compensate(p, Acked)) == Move(s, p, Returned(prompt, SendFailed))
    ensures s.processes[p] == Accepting(prompt) && s.turn.value.delivery in {Accepted, Failed} ==>
              Ends(s, Step(Step(s, MarkAccepted(p, Acked)), RereadAccepted(p, true)), p, prompt, s.turn, s.sent,
                   if s.turn.value.delivery == Accepted then Answered else StoreFailed)
  {
  }

  // The opening transaction answers by the session and turn that it finds, whatever has become of them since the replay;
  // only a pending turn that is still queued, or a new one, goes on to be marked.
  lemma LateOpenAnswers<P>(s: System<P>, p: nat, prompt: P)
    requires p in s.processes && s.processes[p] == Opening(prompt)
    ensures var t := Step(s, Open(p, Acked));
            && (s.ended ==> t == Move(s, p, Returned(prompt, SessionUnavailable)))
            && (!s.ended && s.turn.None? ==> t == Move(s.(turn := Opened(prompt)), p, Marking(prompt)))
            && (!s.ended && s.turn.Some? ==>
                  t == Move(s, p,
                            if s.turn.value.prompt != prompt then Returned(prompt, KeyReused)
                            else if s.turn.value.delivery in {Accepted, Unknown} then Returned(prompt, Answered)
                            else if s.turn.value.delivery == Pending && s.turn.value.status == Queued then Marking(prompt)
                            else Returned(prompt, SendFailed)))
    ensures s.turn.Some? && !s.ended ==>
              forall commit | commit != Acked ::
                Step(s, Open(p, commit))
                == Move(s, p, Returned(prompt, if s.turn.value.prompt != prompt then KeyReused else StoreFailed))
  {
  }

  // A crash loses the handler and nothing that is recorded or sent.
  lemma CrashForgets<P>(s: System<P>, p: nat)
    ensures Step(s, Crash(p)) == s.(processes := s.processes - {p})
  {
  }

  // A process that restores the session closes its turn: one that cannot have been sent fails, one that may have been sent
  // keeps saying so, and one that is over stays as it is.
  lemma RestartSettles<P>(s: System<P>, p: nat)
    requires p !in s.processes && !s.ended
    ensures var t := Step(s, Boot(p, true));
            && t.sent == s.sent && t.processes == s.processes[p := Idle] && !t.ended
            && (s.turn.None? ==> t.turn.None?)
            && (s.turn.Some? ==>
                  && t.turn.Some? && t.turn.value.status == Terminal && t.turn.value.prompt == s.turn.value.prompt
                  && t.turn.value.delivery == if s.turn.value.status != Terminal && s.turn.value.delivery == Pending then Failed
                                              else s.turn.value.delivery)
  {
  }

  // The bridge's events: a started turn was accepted, and a finished one, or an ended session's, is over.
  lemma EventsSettle<P>(s: System<P>)
    requires s.sent != [] && s.turn.Some?
    ensures var t := Step(s, TurnStarted);
            t == if s.turn.value.status == Queued
                 then s.(turn := Some(Turn(s.turn.value.prompt, Accepted, TurnStatus.Running))) else s
    ensures Step(s, TurnFinished) == s.(turn := Some(Turn(s.turn.value.prompt, s.turn.value.delivery, Terminal)))
    ensures Step(s, EndSession) == s.(turn := Some(Turn(s.turn.value.prompt, s.turn.value.delivery, Terminal)), ended := true)
  {
  }
}
