/** Which damage to a checkpoint history later comments can still repair (pkg/workcontinuity/records.go). */
module ContinuityRepair {
  import opened Wrappers
  import opened Continuity

  predicate Forked(all: set<Checkpoint>) {
    exists a, b :: a in all && b in all && a != b && a.predecessor == b.predecessor
  }

  /** A predecessor that is neither the root nor an ID that a checkpoint can have. */
  predicate Orphaned(all: set<Checkpoint>) {
    exists c :: c in all && c.predecessor != "" && !ValidId(c.predecessor)
  }

  function Names(all: set<Checkpoint>): set<string> {
    set c | c in all :: c.id
  }

  function Parents(all: set<Checkpoint>): set<string> {
    set c | c in all :: c.predecessor
  }

  /** Checkpoints that have their predecessors among themselves. */
  predicate Loop(loop: set<Checkpoint>) {
    loop != {} && Parents(loop) <= Names(loop)
  }

  predicate Looped(all: set<Checkpoint>) {
    exists loop: set<Checkpoint> :: loop <= all && Loop(loop)
  }

  predicate Damaged(comments: seq<Comment>, task: string) {
    || !Readable(comments, task)
    || Forked(Published(comments)) || Orphaned(Published(comments)) || Looped(Published(comments))
  }

  // ---- Damage stays ----

  lemma EarlierInLoop(loop: set<Checkpoint>, c: Checkpoint) returns (d: Checkpoint)
    requires Loop(loop) && c in loop
    ensures d in loop && d.id == c.predecessor
  {
    assert c.predecessor in Parents(loop);
    d :| d in loop && d.id == c.predecessor;
  }

  /** On a chain, the first checkpoint has no predecessor and every other has the one before it. */
  lemma PredecessorOnChain(chain: seq<Checkpoint>, all: set<Checkpoint>, i: nat)
    requires Chains(chain, all) && i < |chain|
    ensures chain[i] in all
    ensures chain[i].predecessor == if i == 0 then "" else chain[i - 1].id
  {
    assert chain[i] in chain;
    assert IdBefore(chain, i) == chain[i].predecessor;
  }

  lemma OnChain(chain: seq<Checkpoint>, all: set<Checkpoint>, c: Checkpoint) returns (i: nat)
    requires Chains(chain, all) && c in all
    ensures i < |chain| && chain[i] == c
  {
    assert c in chain;
    i :| 0 <= i < |chain| && chain[i] == c;
  }

  lemma {:induction false} LoopIsOffChain(chain: seq<Checkpoint>, all: set<Checkpoint>, loop: set<Checkpoint>, i: nat)
    requires Chains(chain, all) && ConsistentIds(all) && loop <= all && Loop(loop) && i < |chain|
    ensures chain[i] !in loop
  {
    if chain[i] in loop {
      hide Chains, Loop;
      var d := EarlierInLoop(loop, chain[i]);
      PredecessorOnChain(chain, all, i);
      if i > 0 {
        PredecessorOnChain(chain, all, i - 1);
        LoopIsOffChain(chain, all, loop, i - 1);
      }
    }
  }

  lemma LoopHasNoChain(chain: seq<Checkpoint>, all: set<Checkpoint>, loop: set<Checkpoint>)
    requires ConsistentIds(all) && loop <= all && Loop(loop)
    ensures !Chains(chain, all)
  {
    if Chains(chain, all) {
      var c :| c in loop;
      hide Chains, Loop;
      var i := OnChain(chain, all, c);
      LoopIsOffChain(chain, all, loop, i);
    }
  }

  lemma OrphanHasNoChain(chain: seq<Checkpoint>, all: set<Checkpoint>, c: Checkpoint)
    requires c in all && c.predecessor != "" && !ValidId(c.predecessor)
    ensures !Chains(chain, all)
  {
    if Chains(chain, all) {
      hide Chains;
      var i := OnChain(chain, all, c);
      PredecessorOnChain(chain, all, i);
    }
  }

  /** Whatever is appended, a damaged history fails. */
  lemma DamageIsPermanent(comments: seq<Comment>, more: seq<Comment>, task: string)
    requires Damaged(comments, task)
    ensures HistoryOf(comments + more, task).Failure?
  {
    if HistoryOf(comments + more, task).Success? {
      var chain := HistoryIsAChain(comments + more, task);
      hide ValidId;
      var some, all := Published(comments), Published(comments + more);
      assert forall comment | comment in comments :: comment in comments + more;
      assert some <= all;
      hide Loop, Linked, Chains, HistoryOf;
      if Forked(some) {
        var a, b :| a in some && b in some && a != b && a.predecessor == b.predecessor;
        ForkHasNoChain(chain, all, a, b);
      } else if Orphaned(some) {
        var c :| c in some && c.predecessor != "" && !ValidId(c.predecessor);
        OrphanHasNoChain(chain, all, c);
      } else if Looped(some) {
        var loop: set<Checkpoint> :| loop <= some && Loop(loop);
        LoopHasNoChain(chain, all, loop);
      }
    }
  }

  // ---- Everything else can be repaired ----

  predicate HasId(part: seq<Checkpoint>, id: string) {
    exists c :: c in part && c.id == id
  }

  /** A linked list without a repeated ID, all for one task. */
  predicate Path(part: seq<Checkpoint>, task: string) {
    && Linked(part)
    && (forall c | c in part :: c.task == task)
    && (forall i, j | 0 <= i < j < |part| :: part[i].id != part[j].id)
  }

  /** The checkpoints that are not placed yet can only go on after the last one placed. */
  predicate Placeable(part: seq<Checkpoint>, rest: set<Checkpoint>, task: string) {
    && (forall c | c in rest :: c.task == task && !HasId(part, c.id))
    && (forall c | c in rest && (c.predecessor == "" || HasId(part, c.predecessor)) ::
          c.predecessor == IdBefore(part, |part|))
  }

  predicate Sound(all: set<Checkpoint>) {
    ConsistentIds(all) && !Forked(all) && !Orphaned(all) && !Looped(all)
  }

  lemma HasIdExtends(part: seq<Checkpoint>, next: Checkpoint, id: string)
    ensures HasId(part + [next], id) <==> HasId(part, id) || next.id == id
  {
    assert forall c :: c in part + [next] <==> c in part || c == next;
    assert next in part + [next];
  }

  lemma PathExtends(part: seq<Checkpoint>, next: Checkpoint, task: string)
    requires Path(part, task) && next.predecessor == IdBefore(part, |part|) && next.task == task && !HasId(part, next.id)
    ensures Path(part + [next], task)
  {
    LinkedExtends(part, next);
    assert forall i | 0 <= i < |part| :: part[i] in part;
  }

  /** A checkpoint that follows the last one is placed there. */
  lemma Place(part: seq<Checkpoint>, rest: set<Checkpoint>, task: string, c: Checkpoint)
    requires Path(part, task) && Placeable(part, rest, task) && ConsistentIds(rest) && !Forked(rest)
    requires c in rest && c.predecessor == IdBefore(part, |part|)
    ensures Path(part + [c], task) && Placeable(part + [c], rest - {c}, task)
  {
    PathExtends(part, c, task);
    LinkedExtends(part, c);
    forall d | d in rest - {c}
      ensures !HasId(part + [c], d.id)
      ensures d.predecessor == "" || HasId(part + [c], d.predecessor) ==> d.predecessor == c.id
    {
      HasIdExtends(part, c, d.id);
      HasIdExtends(part, c, d.predecessor);
    }
  }

  /** The missing checkpoint between the last one placed and one whose predecessor nobody has published. */
  function Bridge(part: seq<Checkpoint>, c: Checkpoint): (bridge: Checkpoint)
    requires ValidId(c.predecessor)
    ensures bridge.id == c.predecessor && bridge.predecessor == IdBefore(part, |part|) && bridge.task == c.task
  {
    c.(id := c.predecessor, predecessor := IdBefore(part, |part|))
  }

  /** If none follows the last one, a bridge to one whose predecessor is missing lets it follow. */
  lemma PlaceBridge(part: seq<Checkpoint>, rest: set<Checkpoint>, task: string, c: Checkpoint)
    requires Path(part, task) && Placeable(part, rest, task) && !Orphaned(rest) && c in rest
    requires forall d | d in rest :: d.predecessor != IdBefore(part, |part|) && d.id != c.predecessor
    ensures ValidId(c.predecessor)
    ensures Path(part + [Bridge(part, c)], task) && Placeable(part + [Bridge(part, c)], rest, task)
    ensures IdBefore(part + [Bridge(part, c)], |part| + 1) == c.predecessor
  {
    var bridge := Bridge(part, c);
    PathExtends(part, bridge, task);
    LinkedExtends(part, bridge);
    forall d | d in rest
      ensures !HasId(part + [bridge], d.id)
      ensures d.predecessor == "" || HasId(part + [bridge], d.predecessor) ==> d.predecessor == bridge.id
    {
      HasIdExtends(part, bridge, d.id);
      HasIdExtends(part, bridge, d.predecessor);
    }
  }

  /** Every sound set can be completed to one path. */
  lemma {:induction false} Complete(all: set<Checkpoint>, part: seq<Checkpoint>, rest: set<Checkpoint>, task: string)
    returns (path: seq<Checkpoint>)
    requires Sound(all) && rest <= all && forall c | c in all :: c in part || c in rest
    requires Path(part, task) && Placeable(part, rest, task)
    ensures Path(path, task) && forall c | c in all :: c in path
    decreases |rest|, forall c | c in rest :: c.predecessor != IdBefore(part, |part|)
  {
    if rest == {} {
      return part;
    }
    if c :| c in rest && c.predecessor == IdBefore(part, |part|) {
      Place(part, rest, task, c);
      path := Complete(all, part + [c], rest - {c}, task);
    } else {
      assert !Loop(rest);
      var c :| c in rest && c.predecessor !in Names(rest);
      assert forall d | d in rest :: d.id in Names(rest);
      PlaceBridge(part, rest, task, c);
      path := Complete(all, part + [Bridge(part, c)], rest, task);
    }
  }

  /** The comments with which an owner would publish a path. */
  function Publications(path: seq<Checkpoint>): (comments: seq<Comment>)
    ensures Published(comments) == set c | c in path
    ensures forall comment | comment in comments ::
              Relevant(comment) && comment.decoded.Some? && comment.decoded.value in path
  {
    var comments := seq(|path|, i requires 0 <= i < |path| => Comment(false, Owner, true, Some(path[i]), ""));
    assert forall i | 0 <= i < |path| :: comments[i] in comments && comments[i].decoded == Some(path[i]);
    comments
  }

  lemma PublicationsRepair(comments: seq<Comment>, path: seq<Checkpoint>, task: string)
    requires Readable(comments, task) && Path(path, task) && forall c | c in Published(comments) :: c in path
    ensures HistoryOf(comments + Publications(path), task).Success?
  {
    var more := Publications(path);
    var all := comments + more;
    assert forall comment :: comment in all <==> comment in comments || comment in more;
    assert Published(all) == Published(comments) + Published(more);
    assert Chains(path, Published(all));
    assert ConsistentIds(Published(all));
    assert Readable(all, task);
    HistorySucceedsExactly(all, task, path);
  }

  // A history fails for good, whatever is appended, if and only if a trusted comment cannot be read, two checkpoints
  // share a predecessor, one names a predecessor that cannot be an ID, or some have their predecessors among themselves.
  lemma DamageIsPermanentExactly(comments: seq<Comment>, task: string)
    ensures (forall more: seq<Comment> :: HistoryOf(comments + more, task).Failure?) <==> Damaged(comments, task)
  {
    if Damaged(comments, task) {
      forall more: seq<Comment>
        ensures HistoryOf(comments + more, task).Failure?
      {
        DamageIsPermanent(comments, more, task);
      }
    } else {
      var all := Published(comments);
      assert Path([], task) && Placeable([], all, task);
      var path := Complete(all, [], all, task);
      PublicationsRepair(comments, path, task);
    }
  }
}
