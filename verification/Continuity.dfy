/** Checkpoint history: one linear chain recovered from an append-only comment list (pkg/workcontinuity/records.go). */
module Continuity {
  import opened Wrappers

  /** A decoded checkpoint; everything the history does not look at is its content. */
  datatype Fields = Fields(id: string, task: string, revision: string, predecessor: string, recordedAt: int,
                           fingerprint: string, trace: string, content: string)

  predicate Alphanumeric(c: char) {
    'A' <= c <= 'Z' || 'a' <= c <= 'z' || '0' <= c <= '9'
  }

  /** The pattern of an ID in the generated validation; a predecessor has none. */
  predicate ValidId(id: string) {
    && 1 <= |id| <= 128 && Alphanumeric(id[0])
    && forall i | 1 <= i < |id| :: Alphanumeric(id[i]) || id[i] in "._-"
  }

  type Checkpoint = c: Fields | ValidId(c.id) witness Fields("0", "", "", "", 0, "", "", "")

  datatype Association = Owner | Collaborator | Other

  /** A comment of the issue: who posted it, whether it holds the marker, and what decodeComment makes of its body. */
  datatype Comment = Comment(blankLogin: bool, association: Association, marked: bool, decoded: Option<Checkpoint>, url: string)

  datatype Receipt = Receipt(checkpoint: Checkpoint, url: string)

  datatype HistoryError = Invalid | Conflict

  predicate TrustedPublisher(comment: Comment) {
    !comment.blankLogin && !comment.association.Other?
  }

  /** A comment that history does not pass over. */
  predicate Relevant(comment: Comment) {
    TrustedPublisher(comment) && comment.marked
  }

  // ---- What a history is ----

  /** The trusted checkpoints of a comment list, without duplicates. */
  function Published(comments: seq<Comment>): set<Checkpoint> {
    set comment | comment in comments && Relevant(comment) && comment.decoded.Some? :: comment.decoded.value
  }

  predicate ConsistentIds(all: set<Checkpoint>) {
    forall a, b | a in all && b in all && a.id == b.id :: a == b
  }

  /** Every trusted checkpoint is well formed and for this task, and no ID has two payloads. */
  predicate Readable(comments: seq<Comment>, task: string) {
    && (forall comment | comment in comments && Relevant(comment) ::
          comment.decoded.Some? && comment.decoded.value.task == task)
    && ConsistentIds(Published(comments))
  }

  function IdBefore(chain: seq<Checkpoint>, i: nat): string
    requires i <= |chain|
  {
    if i == 0 then "" else chain[i - 1].id
  }

  predicate Linked(chain: seq<Checkpoint>) {
    forall i {:trigger IdBefore(chain, i)} | 0 <= i < |chain| :: chain[i].predecessor == IdBefore(chain, i)
  }

  /** One predecessor chain from the empty root that covers all the checkpoints. */
  predicate Chains(chain: seq<Checkpoint>, all: set<Checkpoint>) {
    Linked(chain) && (forall c | c in chain :: c in all) && (forall c | c in all :: c in chain)
  }

  /** The comment that first published a checkpoint. */
  function FirstUrl(comments: seq<Comment>, c: Checkpoint): string {
    if comments == [] then ""
    else
      var before := comments[..|comments| - 1];
      if c in Published(before) then FirstUrl(before, c) else comments[|comments| - 1].url
  }

  function Receipts(comments: seq<Comment>, chain: seq<Checkpoint>): (receipts: seq<Receipt>)
    ensures |receipts| == |chain|
    ensures forall i | 0 <= i < |chain| :: receipts[i] == Receipt(chain[i], FirstUrl(comments, chain[i]))
  {
    seq(|chain|, i requires 0 <= i < |chain| => Receipt(chain[i], FirstUrl(comments, chain[i])))
  }

  /** Why a comment cannot be taken in after the ones before it. */
  function Refusal(before: seq<Comment>, comment: Comment, task: string): Option<HistoryError> {
    if !Relevant(comment) then None
    else if comment.decoded.None? then Some(Invalid)
    else if comment.decoded.value.task != task then Some(Conflict)
    else if exists c :: c in Published(before) && c.id == comment.decoded.value.id && c != comment.decoded.value then
      Some(Conflict)
    else None
  }

  /** The error of the first comment that is refused. */
  function ScanError(comments: seq<Comment>, task: string): Option<HistoryError> {
    if comments == [] then None
    else
      var before := comments[..|comments| - 1];
      if ScanError(before, task).Some? then ScanError(before, task) else Refusal(before, comments[|comments| - 1], task)
  }

  /** What history returns: the covering chain if the comments are readable and there is one. */
  ghost function HistoryOf(comments: seq<Comment>, task: string): Result<seq<Receipt>, HistoryError> {
    if ScanError(comments, task).Some? then Failure(ScanError(comments, task).value)
    else if exists chain: seq<Checkpoint> :: Chains(chain, Published(comments)) then
      var chain: seq<Checkpoint> :| Chains(chain, Published(comments));
      Success(Receipts(comments, chain))
    else Failure(Conflict)
  }

  // ---- There is at most one ----

  lemma {:induction false} LinkedDistinct(part: seq<Checkpoint>, all: set<Checkpoint>, i: nat, j: nat)
    requires Linked(part) && ConsistentIds(all) && (forall c | c in part :: c in all) && i < j < |part|
    ensures part[i].id != part[j].id
  {
    if part[i].id == part[j].id {
      assert part[i] in part && part[j] in part;
      assert IdBefore(part, i) == IdBefore(part, j);
      if i > 0 {
        LinkedDistinct(part, all, i - 1, j - 1);
      }
    }
  }

  /** In a chain, only one position follows the n-th element. */
  lemma OnePosition(chain: seq<Checkpoint>, all: set<Checkpoint>, n: nat, j: nat)
    requires Chains(chain, all) && ConsistentIds(all) && n <= |chain| && j < |chain|
    requires chain[j].predecessor == IdBefore(chain, n)
    ensures j == n
  {
    assert IdBefore(chain, j) == IdBefore(chain, n);
    if 0 < j < n { LinkedDistinct(chain, all, j - 1, n - 1); }
    if 0 < n < j { LinkedDistinct(chain, all, n - 1, j - 1); }
  }

  /** A linked list drawn from the same checkpoints is the beginning of the chain. */
  lemma {:induction false} LinkedIsPrefix(part: seq<Checkpoint>, chain: seq<Checkpoint>, all: set<Checkpoint>)
    requires Linked(part) && Chains(chain, all) && ConsistentIds(all)
    requires forall c | c in part :: c in all
    ensures part <= chain
  {
    if part != [] {
      var n := |part| - 1;
      var shorter := part[..n];
      assert Linked(shorter) by { assert forall i | 0 <= i < n :: IdBefore(shorter, i) == IdBefore(part, i); }
      LinkedIsPrefix(shorter, chain, all);
      assert part[n] in part;
      var j :| 0 <= j < |chain| && chain[j] == part[n];
      assert n > 0 ==> chain[n - 1] == shorter[n - 1] == part[n - 1];
      assert part[n].predecessor == IdBefore(part, n) == IdBefore(chain, n);
      hide Linked, Chains, ConsistentIds;
      OnePosition(chain, all, n, j);
      assert part == shorter + [part[n]];
    }
  }

  lemma UniqueChain(a: seq<Checkpoint>, b: seq<Checkpoint>, all: set<Checkpoint>)
    requires Chains(a, all) && Chains(b, all) && ConsistentIds(all)
    ensures a == b
  {
    LinkedIsPrefix(a, b, all);
    LinkedIsPrefix(b, a, all);
  }

  /** Competing descendants leave no chain. */
  lemma ForkHasNoChain(chain: seq<Checkpoint>, all: set<Checkpoint>, a: Checkpoint, b: Checkpoint)
    requires ConsistentIds(all) && a in all && b in all && a != b && a.predecessor == b.predecessor
    ensures !Chains(chain, all)
  {
    if Chains(chain, all) {
      assert a in chain && b in chain;
      var i :| 0 <= i < |chain| && chain[i] == a;
      var j :| 0 <= j < |chain| && chain[j] == b;
      assert chain[j].predecessor == IdBefore(chain, i);
      hide Chains, Linked, ConsistentIds, IdBefore, ValidId;
      OnePosition(chain, all, i, j);
    }
  }

  // ---- Success, exactly ----

  lemma {:induction false} ScanErrorExactly(comments: seq<Comment>, task: string)
    ensures ScanError(comments, task).None? <==> Readable(comments, task)
  {
    if comments != [] {
      var before := comments[..|comments| - 1];
      var last := comments[|comments| - 1];
      ScanErrorExactly(before, task);
      assert comments == before + [last];
      assert forall comment :: comment in comments <==> comment in before || comment == last;
      assert Published(comments)
          == Published(before) + (if Relevant(last) && last.decoded.Some? then {last.decoded.value} else {});
    }
  }

  lemma HistoryIsAChain(comments: seq<Comment>, task: string) returns (chain: seq<Checkpoint>)
    requires HistoryOf(comments, task).Success?
    ensures HistoryOf(comments, task) == Success(Receipts(comments, chain))
    ensures Readable(comments, task) && Chains(chain, Published(comments))
  {
    ScanErrorExactly(comments, task);
    chain :| HistoryOf(comments, task) == Success(Receipts(comments, chain)) && Chains(chain, Published(comments));
  }

  lemma ReceiptsDetermineChain(comments: seq<Comment>, a: seq<Checkpoint>, b: seq<Checkpoint>)
    requires Receipts(comments, a) == Receipts(comments, b)
    ensures a == b
  {
    assert |a| == |Receipts(comments, a)| && |b| == |Receipts(comments, b)|;
    forall i | 0 <= i < |a|
      ensures a[i] == b[i]
    {
      assert Receipts(comments, a)[i].checkpoint == Receipts(comments, b)[i].checkpoint;
    }
  }

  // history succeeds if and only if the trusted checkpoints are well formed, for this task, consistent per ID, and form
  // one predecessor chain from the empty root that covers all of them; and then it returns that chain.
  lemma HistorySucceedsExactly(comments: seq<Comment>, task: string, chain: seq<Checkpoint>)
    ensures HistoryOf(comments, task) == Success(Receipts(comments, chain))
            <==> Readable(comments, task) && Chains(chain, Published(comments))
  {
    ScanErrorExactly(comments, task);
    if HistoryOf(comments, task) == Success(Receipts(comments, chain)) {
      var chosen := HistoryIsAChain(comments, task);
      ReceiptsDetermineChain(comments, chain, chosen);
    }
    if Readable(comments, task) && Chains(chain, Published(comments)) {
      var chosen := HistoryIsAChain(comments, task);
      UniqueChain(chain, chosen, Published(comments));
    }
  }

  // Neither success nor the chain depends on the order in which the comments arrived.
  lemma OrderIsIrrelevant(a: seq<Comment>, b: seq<Comment>, task: string, chain: seq<Checkpoint>)
    requires forall comment :: comment in a <==> comment in b
    ensures HistoryOf(a, task).Success? <==> HistoryOf(b, task).Success?
    ensures HistoryOf(a, task) == Success(Receipts(a, chain)) <==> HistoryOf(b, task) == Success(Receipts(b, chain))
  {
    assert Published(a) == Published(b);
    assert Readable(a, task) <==> Readable(b, task);
    HistorySucceedsExactly(a, task, chain);
    HistorySucceedsExactly(b, task, chain);
    if HistoryOf(a, task).Success? {
      var found := HistoryIsAChain(a, task);
      HistorySucceedsExactly(b, task, found);
    }
    if HistoryOf(b, task).Success? {
      var found := HistoryIsAChain(b, task);
      HistorySucceedsExactly(a, task, found);
    }
  }

  // ---- Append-only extension ----

  lemma {:induction false} FirstUrlIsStable(comments: seq<Comment>, more: seq<Comment>, c: Checkpoint)
    requires c in Published(comments)
    ensures FirstUrl(comments + more, c) == FirstUrl(comments, c)
  {
    if more == [] {
      assert comments + more == comments;
    } else {
      var all := comments + more;
      assert all[..|all| - 1] == comments + more[..|more| - 1];
      FirstUrlIsStable(comments, more[..|more| - 1], c);
    }
  }

  // If the history succeeds before and after an extension, the earlier one is a prefix of the later one.
  lemma ExtensionKeepsHistory(comments: seq<Comment>, more: seq<Comment>, task: string)
    requires HistoryOf(comments, task).Success? && HistoryOf(comments + more, task).Success?
    ensures HistoryOf(comments, task).value <= HistoryOf(comments + more, task).value
  {
    var chain := HistoryIsAChain(comments, task);
    var longer := HistoryIsAChain(comments + more, task);
    LinkedIsPrefix(chain, longer, Published(comments + more));
    forall i | 0 <= i < |chain|
      ensures Receipts(comments, chain)[i] == Receipts(comments + more, longer)[i]
    {
      assert chain[i] in chain;
      FirstUrlIsStable(comments, more, chain[i]);
    }
  }

  // ---- history as the source computes it ----

  /** byID agrees with the comments scanned so far. */
  predicate Indexes(byID: map<string, Receipt>, comments: seq<Comment>) {
    && (forall id | id in byID :: byID[id].checkpoint.id == id && byID[id].checkpoint in Published(comments)
                                  && byID[id].url == FirstUrl(comments, byID[id].checkpoint))
    && (forall c | c in Published(comments) :: c.id in byID && byID[c.id].checkpoint == c)
  }

  lemma PublishedExtends(before: seq<Comment>, last: Comment)
    ensures Published(before + [last])
            == Published(before) + (if Relevant(last) && last.decoded.Some? then {last.decoded.value} else {})
  {
    assert forall comment :: comment in before + [last] <==> comment in before || comment == last;
  }

  /** A comment that is passed over, or repeats an entry, leaves the index as it is; a new one adds an entry. */
  lemma IndexExtends(byID: map<string, Receipt>, before: seq<Comment>, comment: Comment)
    requires Indexes(byID, before)
    requires Relevant(comment) ==> comment.decoded.Some?
    ensures Relevant(comment) && comment.decoded.value.id !in byID ==>
              Indexes(byID[comment.decoded.value.id := Receipt(comment.decoded.value, comment.url)], before + [comment])
    ensures !Relevant(comment)
            || (comment.decoded.value.id in byID && byID[comment.decoded.value.id].checkpoint == comment.decoded.value)
            ==> Indexes(byID, before + [comment])
  {
    PublishedExtends(before, comment);
    assert (before + [comment])[..|before|] == before;
  }

  /** A clash with an earlier payload is a clash with the index. */
  lemma IndexRefuses(byID: map<string, Receipt>, before: seq<Comment>, comment: Comment, task: string)
    requires Indexes(byID, before)
    requires Relevant(comment) && comment.decoded.Some? && comment.decoded.value.task == task
    ensures Refusal(before, comment, task)
            == if comment.decoded.value.id in byID && byID[comment.decoded.value.id].checkpoint != comment.decoded.value
               then Some(Conflict) else None
  {
  }

  method Scan(comments: seq<Comment>, task: string) returns (byID: map<string, Receipt>, error: Option<HistoryError>)
    ensures error == ScanError(comments, task)
    ensures error.None? ==> Indexes(byID, comments)
  {
    byID, error := map[], None;
    for k := 0 to |comments|
      invariant ScanError(comments[..k], task) == None
      invariant Indexes(byID, comments[..k])
    {
      var comment := comments[k];
      assert comments[..k + 1] == comments[..k] + [comment] && comments[..k + 1][..k] == comments[..k];
      assert ScanError(comments[..k + 1], task) == Refusal(comments[..k], comment, task);
      hide Indexes, ScanError;
      if !TrustedPublisher(comment) || !comment.marked {
        IndexExtends(byID, comments[..k], comment);
        continue;
      }
      if comment.decoded.None? {
        ErrorIsFinal(comments, k + 1, task);
        return byID, Some(Invalid);
      }
      var checkpoint := comment.decoded.value;
      if checkpoint.task != task {
        ErrorIsFinal(comments, k + 1, task);
        return byID, Some(Conflict);
      }
      IndexRefuses(byID, comments[..k], comment, task);
      hide Refusal;
      IndexExtends(byID, comments[..k], comment);
      if checkpoint.id in byID {
        if byID[checkpoint.id].checkpoint != checkpoint {
          ErrorIsFinal(comments, k + 1, task);
          return byID, Some(Conflict);
        }
        continue;
      }
      byID := byID[checkpoint.id := Receipt(checkpoint, comment.url)];
    }
    assert comments[..|comments|] == comments;
  }

  lemma {:induction false} ErrorIsFinal(comments: seq<Comment>, k: nat, task: string)
    requires k <= |comments| && ScanError(comments[..k], task).Some?
    ensures ScanError(comments, task) == ScanError(comments[..k], task)
    decreases |comments|
  {
    if k == |comments| {
      assert comments[..k] == comments;
    } else {
      var before := comments[..|comments| - 1];
      assert before[..k] == comments[..k];
      ErrorIsFinal(before, k, task);
    }
  }

  /** The children map: every receipt under its predecessor, unless two share one. */
  method Children(byID: map<string, Receipt>) returns (children: map<string, Receipt>, forked: bool)
    ensures forked <==> exists a, b :: a in byID && b in byID && a != b
                          && byID[a].checkpoint.predecessor == byID[b].checkpoint.predecessor
    ensures !forked ==> (forall parent | parent in children ::
                           exists id :: id in byID && children[parent] == byID[id] && byID[id].checkpoint.predecessor == parent)
    ensures !forked ==> forall id | id in byID :: byID[id].checkpoint.predecessor in children
                                                 && children[byID[id].checkpoint.predecessor] == byID[id]
  {
    hide ValidId;
    children, forked := map[], false;
    var rest := byID.Keys;
    while rest != {}
      invariant rest <= byID.Keys
      invariant forall parent | parent in children ::
                  exists id :: id in byID && id !in rest && children[parent] == byID[id]
                               && byID[id].checkpoint.predecessor == parent
      invariant forall id | id in byID && id !in rest :: byID[id].checkpoint.predecessor in children
                                                         && children[byID[id].checkpoint.predecessor] == byID[id]
      invariant forall a, b | a in byID && b in byID && a !in rest && b !in rest && a != b ::
                  byID[a].checkpoint.predecessor != byID[b].checkpoint.predecessor
      decreases |rest|
    {
      var id :| id in rest;
      var item := byID[id];
      rest := rest - {id};
      var parent := item.checkpoint.predecessor;
      if parent in children {
        return children, true;
      }
      children := children[parent := item];
    }
  }

  function Checkpoints(receipts: seq<Receipt>): (chain: seq<Checkpoint>)
    ensures |chain| == |receipts| && forall i | 0 <= i < |chain| :: chain[i] == receipts[i].checkpoint
  {
    seq(|receipts|, i requires 0 <= i < |receipts| => receipts[i].checkpoint)
  }

  lemma LinkedExtends(part: seq<Checkpoint>, next: Checkpoint)
    requires Linked(part) && next.predecessor == IdBefore(part, |part|)
    ensures Linked(part + [next]) && IdBefore(part + [next], |part| + 1) == next.id
  {
    assert forall i | 0 <= i <= |part| :: IdBefore(part + [next], i) == IdBefore(part, i);
  }

  /** The receipts are those of the index, each under its own ID. */
  predicate DrawnFrom(chain: seq<Receipt>, byID: map<string, Receipt>) {
    forall receipt | receipt in chain :: receipt.checkpoint.id in byID && byID[receipt.checkpoint.id] == receipt
  }

  /** history's last loop, which follows the children from the root. */
  method Walk(byID: map<string, Receipt>, children: map<string, Receipt>) returns (chain: seq<Receipt>, complete: bool)
    requires forall parent | parent in children ::
               exists id :: id in byID && children[parent] == byID[id] && byID[id].checkpoint.predecessor == parent
    requires forall id | id in byID :: byID[id].checkpoint.id == id
    ensures Linked(Checkpoints(chain)) && DrawnFrom(chain, byID)
    ensures complete <==> |byID| <= |chain|
    ensures !complete ==> IdBefore(Checkpoints(chain), |chain|) !in children
  {
    chain := [];
    var parent := "";
    while |chain| < |byID|
      invariant Linked(Checkpoints(chain)) && parent == IdBefore(Checkpoints(chain), |chain|)
      invariant DrawnFrom(chain, byID)
    {
      if parent !in children {
        return chain, false;
      }
      var next := children[parent];
      ghost var before := Checkpoints(chain);
      LinkedExtends(before, next.checkpoint);
      hide Linked, IdBefore;
      chain := chain + [next];
      assert Checkpoints(chain) == before + [next.checkpoint];
      parent := next.checkpoint.id;
    }
    return chain, true;
  }

  method History(comments: seq<Comment>, task: string) returns (result: Result<seq<Receipt>, HistoryError>)
    ensures result == HistoryOf(comments, task)
  {
    var byID, error := Scan(comments, task);
    if error.Some? {
      return Failure(error.value);
    }
    ScanErrorExactly(comments, task);
    hide ScanError, Published, ConsistentIds, Linked, IdBefore, Chains, ValidId, HistoryOf;
    var children, forked := Children(byID);
    if forked {
      ForkedHistoryFails(comments, byID);
      NoChainFails(comments, task);
      return Failure(Conflict);
    }
    var chain, complete := Walk(byID, children);
    if !complete {
      UnfinishedHistoryFails(comments, byID, children, chain);
      NoChainFails(comments, task);
      return Failure(Conflict);
    }
    FullChainCovers(comments, byID, chain);
    HistorySucceedsExactly(comments, task, Checkpoints(chain));
    assert Receipts(comments, Checkpoints(chain)) == chain;
    return Success(chain);
  }

  lemma NoChainFails(comments: seq<Comment>, task: string)
    requires ScanError(comments, task).None? && !exists chain: seq<Checkpoint> :: Chains(chain, Published(comments))
    ensures HistoryOf(comments, task) == Failure(Conflict)
  {
  }

  lemma ForkedHistoryFails(comments: seq<Comment>, byID: map<string, Receipt>)
    requires Indexes(byID, comments) && ConsistentIds(Published(comments))
    requires exists a, b :: a in byID && b in byID && a != b
               && byID[a].checkpoint.predecessor == byID[b].checkpoint.predecessor
    ensures !exists chain: seq<Checkpoint> :: Chains(chain, Published(comments))
  {
    var a, b :| a in byID && b in byID && a != b && byID[a].checkpoint.predecessor == byID[b].checkpoint.predecessor;
    forall chain: seq<Checkpoint>
      ensures !Chains(chain, Published(comments))
    {
      ForkHasNoChain(chain, Published(comments), byID[a].checkpoint, byID[b].checkpoint);
    }
  }

  function Ids(chain: seq<Checkpoint>): (ids: seq<string>)
    ensures |ids| == |chain| && forall i | 0 <= i < |ids| :: ids[i] == chain[i].id
  {
    seq(|chain|, i requires 0 <= i < |chain| => chain[i].id)
  }

  /** A list without repetition has as many elements as the set of them. */
  lemma {:induction false} DistinctLength(ids: seq<string>, all: set<string>)
    requires forall i, j | 0 <= i < j < |ids| :: ids[i] != ids[j]
    requires forall id | id in ids :: id in all
    ensures |ids| <= |all|
    ensures |ids| == |all| ==> forall id | id in all :: id in ids
    ensures (forall id | id in all :: id in ids) ==> |ids| == |all|
  {
    if ids == [] {
      assert |all| == 0 ==> all == {};
      if forall id | id in all :: id in ids { assert all == {}; }
    } else {
      var last := ids[|ids| - 1];
      var before := ids[..|ids| - 1];
      assert last in ids && last !in before;
      assert forall id :: id in ids <==> id in before || id == last;
      DistinctLength(before, all - {last});
      assert |all - {last}| == |all| - 1;
    }
  }

  lemma ChainLength(chain: seq<Checkpoint>, comments: seq<Comment>, byID: map<string, Receipt>)
    requires Indexes(byID, comments) && ConsistentIds(Published(comments)) && Chains(chain, Published(comments))
    ensures |chain| == |byID|
  {
    forall i, j | 0 <= i < j < |chain|
      ensures Ids(chain)[i] != Ids(chain)[j]
    {
      LinkedDistinct(chain, Published(comments), i, j);
    }
    forall id | id in byID
      ensures id in Ids(chain)
    {
      var i :| 0 <= i < |chain| && chain[i] == byID[id].checkpoint;
      assert Ids(chain)[i] == id;
    }
    forall id | id in Ids(chain)
      ensures id in byID.Keys
    {
      var i :| 0 <= i < |chain| && Ids(chain)[i] == id;
      assert chain[i] in chain;
    }
    DistinctLength(Ids(chain), byID.Keys);
  }

  /** While a linked part is short of the chain, some receipt continues it. */
  lemma NextIsChild(comments: seq<Comment>, byID: map<string, Receipt>, part: seq<Checkpoint>, chain: seq<Checkpoint>)
    requires Indexes(byID, comments) && ConsistentIds(Published(comments)) && Chains(chain, Published(comments))
    requires Linked(part) && |part| < |byID| && forall c | c in part :: c in Published(comments)
    ensures exists id :: id in byID && byID[id].checkpoint.predecessor == IdBefore(part, |part|)
  {
    LinkedIsPrefix(part, chain, Published(comments));
    ChainLength(chain, comments, byID);
    var n := |part|;
    assert chain[n] in chain && IdBefore(chain, n) == IdBefore(part, n);
    assert byID[chain[n].id].checkpoint == chain[n];
  }

  lemma UnfinishedHistoryFails(comments: seq<Comment>, byID: map<string, Receipt>, children: map<string, Receipt>,
                               chain: seq<Receipt>)
    requires Indexes(byID, comments) && ConsistentIds(Published(comments))
    requires Linked(Checkpoints(chain)) && DrawnFrom(chain, byID) && |chain| < |byID|
    requires IdBefore(Checkpoints(chain), |chain|) !in children
    requires forall id | id in byID :: byID[id].checkpoint.predecessor in children
    ensures !exists full: seq<Checkpoint> :: Chains(full, Published(comments))
  {
    var part := Checkpoints(chain);
    forall c | c in part
      ensures c in Published(comments)
    {
      var i :| 0 <= i < |part| && part[i] == c;
      assert chain[i] in chain;
    }
    forall full: seq<Checkpoint>
      ensures !Chains(full, Published(comments))
    {
      if Chains(full, Published(comments)) {
        NextIsChild(comments, byID, part, full);
      }
    }
  }

  lemma FullChainCovers(comments: seq<Comment>, byID: map<string, Receipt>, chain: seq<Receipt>)
    requires Indexes(byID, comments) && ConsistentIds(Published(comments))
    requires Linked(Checkpoints(chain)) && DrawnFrom(chain, byID) && |byID| <= |chain|
    ensures Chains(Checkpoints(chain), Published(comments))
  {
    var part := Checkpoints(chain);
    forall c | c in part
      ensures c in Published(comments) && c.id in byID
    {
      var i :| 0 <= i < |part| && part[i] == c;
      assert chain[i] in chain;
    }
    forall i, j | 0 <= i < j < |part|
      ensures Ids(part)[i] != Ids(part)[j]
    {
      LinkedDistinct(part, Published(comments), i, j);
    }
    forall id | id in Ids(part)
      ensures id in byID.Keys
    {
      var i :| 0 <= i < |part| && Ids(part)[i] == id;
      assert part[i] in part;
    }
    DistinctLength(Ids(part), byID.Keys);
    forall c | c in Published(comments)
      ensures c in part
    {
      assert c.id in Ids(part);
      var i :| 0 <= i < |part| && Ids(part)[i] == c.id;
      assert part[i] in part;
    }
  }
}
