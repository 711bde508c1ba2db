/** What a snapshot and a call of Checkpoint are answered with, in the terms of the comments and the draft
    (pkg/workcontinuity/records.go, continuity.go). */
module ContinuityAnswers {
  import opened Wrappers
  import opened GoIntegers
  import opened Continuity
  import opened ContinuityWriters

  // ---- Why a history fails ----

  /** A comment that an owner or collaborator posted under a login, with the marker. */
  predicate Counts(comment: Continuity.Comment) {
    !comment.blankLogin && comment.association in {Owner, Collaborator} && comment.marked
  }

  // A comment that does not count, or repeats a published checkpoint, changes neither what is published nor a history.
  lemma OnlyCountedMatter(comments: seq<Continuity.Comment>, task: string, comment: Continuity.Comment)
    requires HistoryOf(comments, task).Success?
    requires !Counts(comment) || (comment.decoded.Some? && comment.decoded.value in Published(comments))
    ensures HistoryOf(comments + [comment], task) == HistoryOf(comments, task)
  {
    PublishedExtends(comments, comment);
    var chain := HistoryIsAChain(comments, task);
    var all := comments + [comment];
    assert Readable(all, task) by {
      assert comment.decoded.Some? && comment.decoded.value in Published(comments) ==>
          exists other :: other in comments && Relevant(other) && other.decoded == comment.decoded;
    }
    HistorySucceedsExactly(all, task, chain);
    forall i | 0 <= i < |chain|
      ensures Receipts(all, chain)[i] == Receipts(comments, chain)[i]
    {
      assert chain[i] in chain;
      FirstUrlIsStable(comments, [comment], chain[i]);
    }
    assert Receipts(all, chain) == Receipts(comments, chain);
  }

  /** The first comment that is refused decides the error. */
  lemma {:induction false} FirstRefused(comments: seq<Continuity.Comment>, task: string)
    ensures ScanError(comments, task) == Some(Invalid) <==>
            exists k :: 0 <= k < |comments| && Readable(comments[..k], task) && Counts(comments[k]) && comments[k].decoded.None?
  {
    if comments != [] {
      var n := |comments| - 1;
      FirstRefused(comments[..n], task);
      ScanErrorExactly(comments[..n], task);
      assert comments[..n + 1] == comments;
      forall k | 0 <= k < n
        ensures comments[..n][..k] == comments[..k] && comments[..n][k] == comments[k]
      {
      }
      if k :| 0 <= k < n && Readable(comments[..k], task) && Counts(comments[k]) && comments[k].decoded.None? {
        assert comments[..n][k] == comments[k];
        UnreadableStays(comments, task, k);
      }
      if ScanError(comments[..n], task) == Some(Invalid) {
        var k :| 0 <= k < n && Readable(comments[..n][..k], task) && Counts(comments[..n][k]) && comments[..n][k].decoded.None?;
        assert Counts(comments[k]) && comments[k].decoded.None? && Readable(comments[..k], task);
      }
    }
  }

  lemma UnreadableStays(comments: seq<Continuity.Comment>, task: string, k: nat)
    requires k < |comments| && Counts(comments[k]) && comments[k].decoded.None?
    ensures !Readable(comments, task)
  {
    assert comments[k] in comments;
  }

  // A history fails as invalid exactly when the first trusted comment that cannot be taken in does not decode; every other
  // failure is a conflict.
  lemma InvalidExactly(comments: seq<Continuity.Comment>, task: string)
    ensures HistoryOf(comments, task) == Failure(Invalid) <==>
            exists k :: 0 <= k < |comments| && Readable(comments[..k], task) && Counts(comments[k]) && comments[k].decoded.None?
  {
    FirstRefused(comments, task);
    hide Readable, ScanError, Chains;
  }

  // ---- What a snapshot is resumed with ----

  // Conditions other than ready: nothing published, an unreadable or conflicting history, or findings on its tip.
  lemma ConditionsExactly(snapshot: Snapshot, revision: string, now: int, maxAge: int)
    ensures var record := ResumeOf(snapshot, revision, now, maxAge);
            && (record.condition == NotFound
                <==> Readable(snapshot.comments, snapshot.task) && Published(snapshot.comments) == {})
            && (record.condition == InvalidData <==> HistoryOf(snapshot.comments, snapshot.task) == Failure(Invalid))
            && (record.condition == ConflictingData <==> HistoryOf(snapshot.comments, snapshot.task) == Failure(Conflict))
            && (record.condition in {Ready, StaleData} <==> record.tip.Some?)
            && (record.condition == StaleData <==> record.findings != [])
  {
    HistorySucceedsExactly(snapshot.comments, snapshot.task, []);
    assert Published(snapshot.comments) == {} <==> Chains([], Published(snapshot.comments));
    if HistoryOf(snapshot.comments, snapshot.task).Success? {
      var chain := HistoryIsAChain(snapshot.comments, snapshot.task);
      UniqueIfEmpty(chain, Published(snapshot.comments));
    }
    hide HistoryOf, Readable, Published, Chains, CheckpointFresh;
  }

  lemma UniqueIfEmpty(chain: seq<Checkpoint>, all: set<Checkpoint>)
    requires Chains(chain, all)
    ensures chain == [] <==> all == {}
  {
    if chain != [] {
      assert chain[0] in chain;
    }
  }

  // The findings name exactly what differs between the tip and the caller, the issue and the clock.
  lemma FindingsExactly(snapshot: Snapshot, revision: string, now: int, maxAge: int, chain: seq<Checkpoint>)
    requires chain != [] && HistoryOf(snapshot.comments, snapshot.task) == Success(Receipts(snapshot.comments, chain))
    ensures var record, tip := ResumeOf(snapshot, revision, now, maxAge), chain[|chain| - 1];
            && record.tip.Some? && record.tip.value.checkpoint == tip
            && (RevisionDiffers in record.findings <==> revision != "" && revision != tip.revision)
            && (IssueChanged in record.findings <==> tip.fingerprint != snapshot.fingerprint)
            && (NotFresh in record.findings
                <==> now < tip.recordedAt || SaturateInt64(now - tip.recordedAt) > maxAge)
            && |record.findings| <= 3
  {
    hide HistoryOf, FirstUrl;
  }

  // ---- What a draft is answered with ----

  // A draft whose ID is recorded is answered when everything that it says is what was recorded, and clashes otherwise.
  lemma RetriesExactly(valid: Fields -> bool, snapshot: Snapshot, draft: Draft, local: Local, maxAge: int,
                       chain: seq<Checkpoint>, recorded: Checkpoint)
    requires HistoryOf(snapshot.comments, snapshot.task) == Success(Receipts(snapshot.comments, chain))
    requires recorded in chain && recorded.id == draft.id
    ensures DecisionOf(valid, snapshot, draft, local, maxAge)
            == if draft.task != "" && draft.task != snapshot.task then Refuse(BadInput)
               else if && draft.version <= 1 && draft.revision == recorded.revision && draft.content == recorded.content
                       && (draft.predecessor == "" || draft.predecessor == recorded.predecessor)
                       && (draft.fingerprint == "" || draft.fingerprint == recorded.fingerprint)
                       && (draft.recordedAt == None || draft.recordedAt == Some(recorded.recordedAt))
                       && (draft.trace == None || draft.trace == Some(recorded.trace))
               then Answer(ResumeOf(snapshot, draft.revision, local.encoded, maxAge))
               else Refuse(Clash)
  {
    var receipts := Receipts(snapshot.comments, chain);
    var i :| 0 <= i < |chain| && chain[i] == recorded;
    assert receipts[i] in receipts && receipts[i].checkpoint == recorded;
    forall receipt | receipt in receipts && receipt.checkpoint.id == draft.id
      ensures receipt == receipts[i]
    {
      OneReceiptPerId(snapshot.comments, snapshot.task, receipt, receipts[i]);
    }
    ReceiptTask(snapshot, receipts[i]);
    hide HistoryOf, ResumeOf, Receipts, NewDecision, ValidId;
  }

  // A draft with a new ID is posted exactly when it is for this issue as it stands, follows the tip, is valid, and is
  // fresh; what is posted is the draft with its blanks filled.
  lemma NewDraftsExactly(valid: Fields -> bool, snapshot: Snapshot, draft: Draft, local: Local, maxAge: int,
                         chain: seq<Checkpoint>)
    requires HistoryOf(snapshot.comments, snapshot.task) == Success(Receipts(snapshot.comments, chain))
    requires forall recorded | recorded in chain :: recorded.id != draft.id
    ensures var tip := if chain == [] then "" else chain[|chain| - 1].id;
            var filled := Fields(draft.id, snapshot.task, draft.revision, tip,
                                 if draft.recordedAt.Some? then draft.recordedAt.value else local.started,
                                 snapshot.fingerprint, if draft.trace.Some? then draft.trace.value else local.trace,
                                 draft.content);
            var current := draft.fingerprint in {"", snapshot.fingerprint} && draft.predecessor in {"", tip};
            var sound := draft.version <= 1 && ValidId(draft.id) && valid(filled);
            var recent := filled.recordedAt <= local.encoded && SaturateInt64(local.encoded - filled.recordedAt) <= maxAge;
            DecisionOf(valid, snapshot, draft, local, maxAge)
            == if draft.task != "" && draft.task != snapshot.task then Refuse(BadInput)
               else if !current then Refuse(Outdated)
               else if !sound then Refuse(BadInput)
               else if !recent then Refuse(Outdated)
               else Post(filled)
  {
    var receipts := Receipts(snapshot.comments, chain);
    forall receipt | receipt in receipts
      ensures receipt.checkpoint.id != draft.id
    {
      var i :| 0 <= i < |receipts| && receipts[i] == receipt;
      assert chain[i] in chain;
    }
    hide HistoryOf, ResumeOf, ValidId;
  }

  // ---- Whole calls ----

  // A call that is repeated with the same draft after it succeeded is answered with the recorded checkpoint and posts
  // nothing.
  lemma RepeatedCallIsAnswered(valid: Fields -> bool, maxAge: int, s: System, call: nat, again: nat, draft: Draft, local: Local,
                               association: Association, url: string, now: int, later: Local, logged: bool)
    requires CallOf(s, call).Idle? && CallOf(s, again).Idle? && again != call && !association.Other?
    requires DecisionOf(valid, s.snapshot, draft, local, maxAge).Post?
    requires var c := DecisionOf(valid, s.snapshot, draft, local, maxAge).checkpoint;
             CheckpointFresh(c.recordedAt, now, maxAge) && CheckpointFresh(c.recordedAt, later.encoded, maxAge)
    ensures var c := DecisionOf(valid, s.snapshot, draft, local, maxAge).checkpoint;
            var verified := Step(valid, maxAge,
                                 Step(valid, maxAge,
                                      Step(valid, maxAge, s, Start(call, draft, local, true)),
                                      Append(call, false, association, url, true, true)),
                                 Verify(call, now, true, true));
            Step(valid, maxAge, verified, Start(again, draft, later, logged))
            == verified.(calls := verified.calls[again := Done(Success(Record(Ready, Some(Receipt(c, url)), [])))])
  {
    var c := DecisionOf(valid, s.snapshot, draft, local, maxAge).checkpoint;
    var comment := Continuity.Comment(false, association, true, Some(c), url);
    var chain := PostContinues(valid, s.snapshot, draft, local, maxAge);
    PostedRepeats(valid, s.snapshot, draft, local, maxAge, chain);
    var snapshot := s.snapshot.(comments := s.snapshot.comments + [comment]);
    UndisturbedCallExtends(valid, maxAge, s, call, draft, local, association, url, now);
    var verified := Step(valid, maxAge,
                         Step(valid, maxAge,
                              Step(valid, maxAge, s, Start(call, draft, local, true)),
                              Append(call, false, association, url, true, true)),
                         Verify(call, now, true, true));
    CallSteps(valid, maxAge, s, call, draft, local, association, url, now);
    RepeatDecision(valid, s.snapshot, draft, local, maxAge, chain, comment, later);
    hide DecisionOf, HistoryOf, ResumeOf, CheckpointFresh;
  }

  /** What the three steps leave of the snapshot and of other calls. */
  lemma CallSteps(valid: Fields -> bool, maxAge: int, s: System, call: nat, draft: Draft, local: Local,
                  association: Association, url: string, now: int)
    requires CallOf(s, call).Idle? && !association.Other? && DecisionOf(valid, s.snapshot, draft, local, maxAge).Post?
    ensures var c := DecisionOf(valid, s.snapshot, draft, local, maxAge).checkpoint;
            var appended := Step(valid, maxAge, Step(valid, maxAge, s, Start(call, draft, local, true)),
                                 Append(call, false, association, url, true, true));
            var verified := Step(valid, maxAge, appended, Verify(call, now, true, true));
            && verified.snapshot
               == s.snapshot.(comments := s.snapshot.comments + [Continuity.Comment(false, association, true, Some(c), url)])
            && forall other | other != call :: CallOf(verified, other) == CallOf(s, other)
  {
    StartPosts(valid, maxAge, s, call, draft, local);
    var started := Step(valid, maxAge, s, Start(call, draft, local, true));
    hide DecisionOf, ResumeOf;
    AppendVerifies(valid, maxAge, started, call, association, url);
  }

  /** What is posted says what its draft says. */
  lemma PostedRepeats(valid: Fields -> bool, snapshot: Snapshot, draft: Draft, local: Local, maxAge: int, chain: seq<Checkpoint>)
    requires DecisionOf(valid, snapshot, draft, local, maxAge).Post?
    ensures var c := DecisionOf(valid, snapshot, draft, local, maxAge).checkpoint;
            Repeats(draft, snapshot, c) && c.task == snapshot.task
  {
    hide HistoryOf, ResumeOf, CheckpointFresh;
  }

  lemma RepeatDecision(valid: Fields -> bool, snapshot: Snapshot, draft: Draft, local: Local, maxAge: int,
                       chain: seq<Checkpoint>, comment: Continuity.Comment, later: Local)
    requires DecisionOf(valid, snapshot, draft, local, maxAge).Post?
    requires var c := DecisionOf(valid, snapshot, draft, local, maxAge).checkpoint;
             comment.decoded == Some(c) && Relevant(comment) && CheckpointFresh(c.recordedAt, later.encoded, maxAge)
    ensures var c := DecisionOf(valid, snapshot, draft, local, maxAge).checkpoint;
            var longer := snapshot.(comments := snapshot.comments + [comment]);
            DecisionOf(valid, longer, draft, later, maxAge) == Answer(Record(Ready, Some(Receipt(c, comment.url)), []))
  {
    var c := DecisionOf(valid, snapshot, draft, local, maxAge).checkpoint;
    var longer := snapshot.(comments := snapshot.comments + [comment]);
    var before := PostContinues(valid, snapshot, draft, local, maxAge);
    PostedRepeats(valid, snapshot, draft, local, maxAge, before);
    NextExtendsHistory(snapshot.comments, snapshot.task, before, comment);
    var after := HistoryIsAChain(longer.comments, longer.task);
    LastOf(snapshot.comments, longer.comments, before, after, Receipt(c, comment.url));
    RetriesExactly(valid, longer, draft, later, maxAge, after, c);
    hide DecisionOf, HistoryOf, Receipts;
    assert ResumeOf(longer, draft.revision, later.encoded, maxAge) == Record(Ready, Some(Receipt(c, comment.url)), []);
  }

  lemma LastOf(comments: seq<Continuity.Comment>, longer: seq<Continuity.Comment>, before: seq<Checkpoint>,
               after: seq<Checkpoint>, last: Receipt)
    requires Receipts(comments, before) + [last] == Receipts(longer, after)
    ensures after != [] && after[|after| - 1] == last.checkpoint && last.checkpoint in after
  {
    assert |Receipts(longer, after)| == |before| + 1;
    assert Receipts(longer, after)[|before|] == last;
  }

  // How a call starts: it is refused or answered at once, or goes on to append once its intent is logged.
  lemma CallsStartExactly(valid: Fields -> bool, maxAge: int, s: System, call: nat, draft: Draft, local: Local, logged: bool)
    requires CallOf(s, call).Idle?
    ensures var t := Step(valid, maxAge, s, Start(call, draft, local, logged));
            && t.snapshot == s.snapshot && t.verified == s.verified
            && match DecisionOf(valid, s.snapshot, draft, local, maxAge)
               case Refuse(error) => CallOf(t, call) == Done(Failure(error))
               case Answer(record) => CallOf(t, call) == Done(Success(record))
               case Post(checkpoint) => CallOf(t, call) == if logged then Posting(checkpoint) else Done(Failure(LogFailed))
  {
    hide DecisionOf, ResumeOf;
  }

  // An ID is up to 128 letters, digits, dots, underscores and hyphens, the first a letter or a digit.
  lemma IdsExactly(id: string)
    ensures ValidId(id) <==>
            && 1 <= |id| <= 128 && id[0] !in "._-"
            && forall c | c in id :: 'A' <= c <= 'Z' || 'a' <= c <= 'z' || '0' <= c <= '9' || c in "._-"
  {
    if 1 <= |id| <= 128 {
      assert forall i | 0 <= i < |id| :: id[i] in id;
    }
  }

  // How the other calls end: an append that failed or went unacknowledged, and a verification that could not load, found
  // another tip or no ready one, or could not be logged. None of them verifies anything.
  lemma CallsFailExactly(valid: Fields -> bool, maxAge: int, s: System, call: nat)
    ensures CallOf(s, call).Posting? ==>
              forall association, url, committed, acknowledged | !(committed && acknowledged) ::
                var t := Step(valid, maxAge, s, Append(call, false, association, url, committed, acknowledged));
                && CallOf(t, call) == Done(Failure(SourceFailed)) && t.verified == s.verified
                && t.snapshot.comments
                   == s.snapshot.comments
                      + (if committed then [Continuity.Comment(false, association, true, Some(CallOf(s, call).checkpoint), url)]
                         else [])
    ensures CallOf(s, call).Verifying? ==>
              forall now, loaded, logged ::
                var own := CallOf(s, call).checkpoint;
                var record := ResumeOf(s.snapshot, own.revision, now, maxAge);
                var agreed := record.condition == Ready && record.tip.Some? && record.tip.value.checkpoint.id == own.id;
                var t := Step(valid, maxAge, s, Verify(call, now, loaded, logged));
                && t.snapshot == s.snapshot
                && CallOf(t, call) == Done(if !loaded then Failure(SourceFailed) else if !agreed then Failure(NotVerified)
                                           else if !logged then Failure(LogFailed) else Success(record))
                && (!(loaded && agreed && logged) ==> t.verified == s.verified)
  {
    hide HistoryOf, DecisionOf, CheckpointFresh;
    assert s.snapshot.comments + [] == s.snapshot.comments;
  }
}
