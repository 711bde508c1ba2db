/** mutationRegistry: reference-counted per-key locks (services/copilot-adapter/session_mutations.go). */
module CopilotRegistry {
  import opened Wrappers

  /** A goroutine's place in lock, in the section it protects, or in the release closure. */
  datatype Phase<K> =
    | Outside
    | Waiting(key: K, mutation: nat)
    | Holding(key: K, mutation: nat)
    | Releasing(key: K, mutation: nat)

  /** A sessionMutation, by its address in the heap; the mutex is locked while it has a holder. */
  datatype Mutation = Mutation(references: int, holder: Option<nat>)

  datatype Registry<K> = Registry(entries: map<K, nat>, heap: map<nat, Mutation>, threads: map<nat, Phase<K>>)

  /** One atomic step of one goroutine: the registry's two critical sections and the entry's Lock and Unlock. */
  datatype Action<K> =
    | Enter(thread: nat, key: K, newId: nat)
    | Acquire(thread: nat)
    | Unlock(thread: nat)
    | Leave(thread: nat)

  function New<K>(): Registry<K> {
    Registry(map[], map[], map[])
  }

  function PhaseOf<K>(r: Registry<K>, thread: nat): Phase<K> {
    if thread in r.threads then r.threads[thread] else Outside
  }

  function Step<K>(r: Registry<K>, action: Action<K>): Registry<K> {
    match action
    case Enter(thread, key, newId) =>
      if PhaseOf(r, thread) != Outside then r
      else if key in r.entries then
        (if r.entries[key] !in r.heap then r else
         var mutation := r.heap[r.entries[key]];
         r.(heap := r.heap[r.entries[key] := mutation.(references := mutation.references + 1)],
            threads := r.threads[thread := Waiting(key, r.entries[key])]))
      else if newId in r.heap then r
      else
        Registry(r.entries[key := newId], r.heap[newId := Mutation(1, None)], r.threads[thread := Waiting(key, newId)])
    case Acquire(thread) =>
      var phase := PhaseOf(r, thread);
      if phase.Waiting? && phase.mutation in r.heap && r.heap[phase.mutation].holder.None? then
        r.(heap := r.heap[phase.mutation := r.heap[phase.mutation].(holder := Some(thread))],
           threads := r.threads[thread := Holding(phase.key, phase.mutation)])
      else r
    case Unlock(thread) =>
      var phase := PhaseOf(r, thread);
      if phase.Holding? && phase.mutation in r.heap then
        r.(heap := r.heap[phase.mutation := r.heap[phase.mutation].(holder := None)],
           threads := r.threads[thread := Releasing(phase.key, phase.mutation)])
      else r
    case Leave(thread) =>
      var phase := PhaseOf(r, thread);
      if phase.Releasing? && phase.mutation in r.heap then
        var mutation := r.heap[phase.mutation].(references := r.heap[phase.mutation].references - 1);
        Registry(if mutation.references == 0 then r.entries - {phase.key} else r.entries,
                 r.heap[phase.mutation := mutation], r.threads - {thread})
      else r
  }

  function StateAt<K>(actions: seq<Action<K>>, k: nat): Registry<K>
    requires k <= |actions|
  {
    if k == 0 then New() else Step(StateAt(actions, k - 1), actions[k - 1])
  }

  /** The goroutines that hold, wait for, or have not yet finished releasing a key. */
  function Users<K>(r: Registry<K>, key: K): set<nat> {
    set t | t in r.threads && r.threads[t] != Outside && r.threads[t].key == key
  }

  /** A goroutine is on the registered object of its key, and holds its mutex exactly when the mutex says so. */
  predicate ThreadAgrees<K(==)>(r: Registry<K>, thread: nat)
    requires thread in r.threads
  {
    var phase := r.threads[thread];
    && phase != Outside && phase.key in r.entries && phase.mutation == r.entries[phase.key]
    && phase.mutation in r.heap
    && (phase.Holding? ==> r.heap[phase.mutation].holder == Some(thread))
  }

  /** A registered object counts its users and names its holder, if any. */
  predicate EntryAgrees<K(==)>(r: Registry<K>, key: K)
    requires key in r.entries
  {
    && r.entries[key] in r.heap
    && Users(r, key) != {} && r.heap[r.entries[key]].references == |Users(r, key)|
    && (r.heap[r.entries[key]].holder.Some? ==>
          var t := r.heap[r.entries[key]].holder.value;
          t in r.threads && r.threads[t] == Holding(key, r.entries[key]))
  }

  ghost predicate Consistent<K(!new)>(r: Registry<K>) {
    && (forall t | t in r.threads :: ThreadAgrees(r, t))
    && (forall key | key in r.entries :: EntryAgrees(r, key))
    && (forall a, b | a in r.entries && b in r.entries && r.entries[a] == r.entries[b] :: a == b)
  }

  /** A key that a step leaves alone keeps agreeing. */
  lemma OtherKeyAgrees<K(!new)>(r: Registry<K>, r': Registry<K>, thread: nat, key: K)
    requires key in r.entries && EntryAgrees(r, key)
    requires key in r'.entries && r'.entries[key] == r.entries[key]
    requires r.entries[key] in r'.heap && r'.heap[r.entries[key]] == r.heap[r.entries[key]]
    requires r'.threads - {thread} == r.threads - {thread}
    requires thread in r.threads && r.threads[thread] != Outside ==> r.threads[thread].key != key
    requires thread in r'.threads && r'.threads[thread] != Outside ==> r'.threads[thread].key != key
    ensures EntryAgrees(r', key)
  {
    forall t | t != thread
      ensures t in r.threads <==> t in r'.threads
      ensures t in r.threads ==> r.threads[t] == r'.threads[t]
    {
      assert t in r.threads <==> t in r.threads - {thread};
      assert t in r'.threads <==> t in r'.threads - {thread};
      assert t in r.threads ==> (r.threads - {thread})[t] == r.threads[t];
      assert t in r'.threads ==> (r'.threads - {thread})[t] == r'.threads[t];
    }
    assert Users(r', key) == Users(r, key);
  }

  lemma JoinKey<K(!new)>(r: Registry<K>, r': Registry<K>, thread: nat, key: K)
    requires Consistent(r) && thread !in r.threads && key in r.entries && r.entries[key] in r.heap
    requires var mutation := r.heap[r.entries[key]];
             r' == r.(heap := r.heap[r.entries[key] := mutation.(references := mutation.references + 1)],
                      threads := r.threads[thread := Waiting(key, r.entries[key])])
    ensures EntryAgrees(r', key)
  {
    assert EntryAgrees(r, key);
    assert Users(r', key) == Users(r, key) + {thread};
  }

  lemma JoinOtherKey<K(!new)>(r: Registry<K>, r': Registry<K>, thread: nat, key: K, other: K)
    requires Consistent(r) && thread !in r.threads && key in r.entries && r.entries[key] in r.heap
    requires var mutation := r.heap[r.entries[key]];
             r' == r.(heap := r.heap[r.entries[key] := mutation.(references := mutation.references + 1)],
                      threads := r.threads[thread := Waiting(key, r.entries[key])])
    requires other in r.entries && other != key
    ensures EntryAgrees(r', other)
  {
    assert EntryAgrees(r, other) && r.entries[other] != r.entries[key];
    hide EntryAgrees, ThreadAgrees, Consistent;
    assert r'.threads - {thread} == r.threads - {thread};
    OtherKeyAgrees(r, r', thread, other);
  }

  lemma JoinThreads<K(!new)>(r: Registry<K>, r': Registry<K>, thread: nat, key: K)
    requires Consistent(r) && thread !in r.threads && key in r.entries && r.entries[key] in r.heap
    requires var mutation := r.heap[r.entries[key]];
             r' == r.(heap := r.heap[r.entries[key] := mutation.(references := mutation.references + 1)],
                      threads := r.threads[thread := Waiting(key, r.entries[key])])
    ensures forall t | t in r'.threads :: ThreadAgrees(r', t)
  {
    hide EntryAgrees;
    forall t | t in r'.threads
      ensures ThreadAgrees(r', t)
    {
      assert t != thread ==> ThreadAgrees(r, t);
    }
  }

  /** A goroutine that joins a registered key takes a reference on the object it finds there. */
  lemma JoinConsistent<K(!new)>(r: Registry<K>, r': Registry<K>, thread: nat, key: K)
    requires Consistent(r) && thread !in r.threads && key in r.entries && r.entries[key] in r.heap
    requires var mutation := r.heap[r.entries[key]];
             r' == r.(heap := r.heap[r.entries[key] := mutation.(references := mutation.references + 1)],
                      threads := r.threads[thread := Waiting(key, r.entries[key])])
    ensures Consistent(r')
  {
    hide EntryAgrees, ThreadAgrees;
    JoinKey(r, r', thread, key);
    JoinThreads(r, r', thread, key);
    forall k | k in r'.entries
      ensures EntryAgrees(r', k)
    {
      if k != key {
        JoinOtherKey(r, r', thread, key, k);
      }
    }
  }

  /** The first goroutine on a key registers a new object for it. */
  lemma FirstConsistent<K(!new)>(r: Registry<K>, r': Registry<K>, thread: nat, key: K, newId: nat)
    requires Consistent(r) && thread !in r.threads && key !in r.entries && newId !in r.heap
    requires r' == Registry(r.entries[key := newId], r.heap[newId := Mutation(1, None)],
                            r.threads[thread := Waiting(key, newId)])
    ensures Consistent(r')
  {
    hide Step, PhaseOf;
    forall t | t in r'.threads
      ensures ThreadAgrees(r', t) && (t != thread ==> r'.threads[t].key != key)
    {
      hide EntryAgrees;
      assert t != thread ==> ThreadAgrees(r, t);
    }
    assert Users(r', key) == {thread};
    assert r'.threads - {thread} == r.threads - {thread};
    forall k | k in r'.entries
      ensures EntryAgrees(r', k) && (k != key ==> r'.entries[k] != newId)
    {
      if k != key {
        assert EntryAgrees(r, k);
        assert r.entries[k] != newId;
        hide EntryAgrees;
        OtherKeyAgrees(r, r', thread, k);
      }
    }
  }

  lemma EnterConsistent<K(!new)>(r: Registry<K>, thread: nat, key: K, newId: nat)
    requires Consistent(r)
    ensures Consistent(Step(r, Enter(thread, key, newId)))
  {
    var r' := Step(r, Enter(thread, key, newId));
    if r' != r {
      assert thread in r.threads ==> ThreadAgrees(r, thread);
      if key in r.entries {
        hide Consistent;
        JoinConsistent(r, r', thread, key);
      } else {
        hide Consistent;
        FirstConsistent(r, r', thread, key, newId);
      }
    }
  }

  lemma HolderChangeThreads<K(!new)>(r: Registry<K>, r': Registry<K>, thread: nat, phase: Phase<K>, holder: Option<nat>)
    requires Consistent(r) && thread in r.threads && phase != Outside
    requires phase.key == r.threads[thread].key && phase.mutation == r.threads[thread].mutation
    requires phase.mutation in r.heap
    requires r' == r.(threads := r.threads[thread := phase],
                      heap := r.heap[phase.mutation := r.heap[phase.mutation].(holder := holder)])
    requires r.heap[phase.mutation].holder == None || r.heap[phase.mutation].holder == Some(thread)
    requires holder == if phase.Holding? then Some(thread) else None
    ensures forall t | t in r'.threads :: ThreadAgrees(r', t)
  {
    assert ThreadAgrees(r, thread);
    hide EntryAgrees;
    forall t | t in r'.threads
      ensures ThreadAgrees(r', t)
    {
      assert ThreadAgrees(r, t);
    }
  }

  lemma HolderChangeKey<K(!new)>(r: Registry<K>, r': Registry<K>, thread: nat, phase: Phase<K>, holder: Option<nat>)
    requires Consistent(r) && thread in r.threads && phase != Outside
    requires phase.key == r.threads[thread].key && phase.mutation == r.threads[thread].mutation
    requires phase.mutation in r.heap
    requires r' == r.(threads := r.threads[thread := phase],
                      heap := r.heap[phase.mutation := r.heap[phase.mutation].(holder := holder)])
    requires r.heap[phase.mutation].holder == None || r.heap[phase.mutation].holder == Some(thread)
    requires holder == if phase.Holding? then Some(thread) else None
    ensures phase.key in r'.entries && EntryAgrees(r', phase.key)
  {
    assert ThreadAgrees(r, thread);
    assert EntryAgrees(r, phase.key);
    assert Users(r', phase.key) == Users(r, phase.key);
  }

  lemma HolderChangeOtherKey<K(!new)>(r: Registry<K>, r': Registry<K>, thread: nat, phase: Phase<K>, holder: Option<nat>,
                                      key: K)
    requires Consistent(r) && thread in r.threads && phase != Outside
    requires phase.key == r.threads[thread].key && phase.mutation == r.threads[thread].mutation
    requires phase.mutation in r.heap
    requires r' == r.(threads := r.threads[thread := phase],
                      heap := r.heap[phase.mutation := r.heap[phase.mutation].(holder := holder)])
    requires r.heap[phase.mutation].holder == None || r.heap[phase.mutation].holder == Some(thread)
    requires holder == if phase.Holding? then Some(thread) else None
    requires key in r.entries && key != phase.key
    ensures EntryAgrees(r', key)
  {
    assert ThreadAgrees(r, thread) && EntryAgrees(r, key);
    assert r.entries[key] != phase.mutation;
    hide EntryAgrees, ThreadAgrees, Consistent;
    assert r'.threads - {thread} == r.threads - {thread};
    OtherKeyAgrees(r, r', thread, key);
  }

  /** Acquire and Unlock move one goroutine along within its key and change nothing but the mutex's holder. */
  lemma HolderChangeConsistent<K(!new)>(r: Registry<K>, r': Registry<K>, thread: nat, phase: Phase<K>, holder: Option<nat>)
    requires Consistent(r) && thread in r.threads && phase != Outside
    requires phase.key == r.threads[thread].key && phase.mutation == r.threads[thread].mutation
    requires phase.mutation in r.heap
    requires r' == r.(threads := r.threads[thread := phase],
                      heap := r.heap[phase.mutation := r.heap[phase.mutation].(holder := holder)])
    requires r.heap[phase.mutation].holder == None || r.heap[phase.mutation].holder == Some(thread)
    requires holder == if phase.Holding? then Some(thread) else None
    ensures Consistent(r')
  {
    hide EntryAgrees, ThreadAgrees;
    HolderChangeThreads(r, r', thread, phase, holder);
    HolderChangeKey(r, r', thread, phase, holder);
    forall k | k in r'.entries
      ensures EntryAgrees(r', k)
    {
      if k != phase.key {
        HolderChangeOtherKey(r, r', thread, phase, holder, k);
      }
    }
  }

  /** The last step of the release closure drops the entry exactly when its user was the only one. */
  lemma LeaveConsistent<K(!new)>(r: Registry<K>, thread: nat)
    requires Consistent(r)
    ensures Consistent(Step(r, Leave(thread)))
  {
    var r' := Step(r, Leave(thread));
    if r' != r {
      assert ThreadAgrees(r, thread);
      var key := r.threads[thread].key;
      assert EntryAgrees(r, key);
      EntriesAfterLeave(r, r', thread);
      ThreadsAfterLeave(r, r', thread);
    }
  }

  lemma EntriesAfterLeave<K(!new)>(r: Registry<K>, r': Registry<K>, thread: nat)
    requires Consistent(r) && thread in r.threads && r.threads[thread].Releasing?
    requires r.threads[thread].mutation in r.heap && r' == Step(r, Leave(thread))
    ensures forall k | k in r'.entries :: EntryAgrees(r', k)
  {
    assert ThreadAgrees(r, thread);
    var key := r.threads[thread].key;
    forall k | k in r'.entries
      ensures EntryAgrees(r', k)
    {
      assert EntryAgrees(r, k);
      if k != key {
        assert Users(r', k) == Users(r, k);
      } else {
        assert thread in Users(r, key) && Users(r', key) == Users(r, key) - {thread};
        assert |Users(r', key)| == |Users(r, key)| - 1;
      }
    }
  }

  lemma ThreadsAfterLeave<K(!new)>(r: Registry<K>, r': Registry<K>, thread: nat)
    requires Consistent(r) && thread in r.threads && r.threads[thread].Releasing?
    requires r.threads[thread].mutation in r.heap && r' == Step(r, Leave(thread))
    ensures forall t | t in r'.threads :: ThreadAgrees(r', t)
  {
    assert ThreadAgrees(r, thread);
    var key := r.threads[thread].key;
    assert EntryAgrees(r, key);
    forall t | t in r'.threads
      ensures ThreadAgrees(r', t)
    {
      assert ThreadAgrees(r, t);
      if r.threads[t].key == key {
        assert {t, thread} <= Users(r, key);
        assert |Users(r, key) - {t, thread}| == |Users(r, key)| - 2;
      }
    }
  }

  lemma StepConsistent<K(!new)>(r: Registry<K>, action: Action<K>)
    requires Consistent(r)
    ensures Consistent(Step(r, action))
  {
    match action {
      case Enter(thread, key, newId) => EnterConsistent(r, thread, key, newId);
      case Leave(thread) => LeaveConsistent(r, thread);
      case _ =>
        var r' := Step(r, action);
        if r' != r {
          assert ThreadAgrees(r, action.thread);
          hide Consistent;
          HolderChangeConsistent(r, r', action.thread, r'.threads[action.thread],
                                 if action.Acquire? then Some(action.thread) else None);
        }
    }
  }

  lemma {:induction false} AlwaysConsistent<K(!new)>(actions: seq<Action<K>>, k: nat)
    requires k <= |actions|
    ensures Consistent(StateAt(actions, k))
  {
    if k > 0 {
      AlwaysConsistent(actions, k - 1);
      hide Step, Consistent;
      StepConsistent(StateAt(actions, k - 1), actions[k - 1]);
    }
  }

  // Under every interleaving: the goroutines on one key share one mutex object, at most one of them holds it,
  // its reference count is their number, and the entry exists exactly while there are any.
  lemma LocksExclude<K(!new)>(actions: seq<Action<K>>, k: nat, key: K)
    requires k <= |actions|
    ensures var r := StateAt(actions, k);
            && (key in r.entries <==> Users(r, key) != {})
            && (key in r.entries ==> r.entries[key] in r.heap && r.heap[r.entries[key]].references == |Users(r, key)|)
            && (forall t | t in Users(r, key) :: key in r.entries && r.threads[t].mutation == r.entries[key])
            && (forall s, t | s in Users(r, key) && t in Users(r, key) && r.threads[s].Holding? && r.threads[t].Holding? ::
                  s == t)
  {
    AlwaysConsistent(actions, k);
    hide StateAt;
    var r := StateAt(actions, k);
    assert key in r.entries ==> EntryAgrees(r, key);
    assert forall t | t in Users(r, key) :: ThreadAgrees(r, t);
  }

  // A waiter is never shut out by a stale object: when nobody holds the key, its next Acquire succeeds.
  lemma FreeKeyCanBeAcquired<K(!new)>(actions: seq<Action<K>>, k: nat, thread: nat)
    requires k <= |actions| && PhaseOf(StateAt(actions, k), thread).Waiting?
    ensures var r := StateAt(actions, k);
            var phase := PhaseOf(r, thread);
            Step(r, Acquire(thread)).threads[thread] == Holding(phase.key, phase.mutation)
            <==> forall t | t in Users(r, phase.key) :: !r.threads[t].Holding?
  {
    AlwaysConsistent(actions, k);
    var r := StateAt(actions, k);
    var phase := PhaseOf(r, thread);
    hide StateAt;
    assert ThreadAgrees(r, thread) && EntryAgrees(r, phase.key);
    assert forall t | t in Users(r, phase.key) :: ThreadAgrees(r, t);
  }

  // From every reachable state the steps of a goroutine do what they are for: it joins the registered object of its key or
  // registers a new one, frees the mutex it held, and is gone at the end.
  lemma EnterJoins<K(!new)>(actions: seq<Action<K>>, k: nat, thread: nat, key: K, newId: nat)
    requires k <= |actions| && PhaseOf(StateAt(actions, k), thread).Outside? && newId !in StateAt(actions, k).heap
    ensures var r := StateAt(actions, k);
            Step(r, Enter(thread, key, newId)).threads
            == r.threads[thread := Waiting(key, if key in r.entries then r.entries[key] else newId)]
  {
    AlwaysConsistent(actions, k);
    var r := StateAt(actions, k);
    hide StateAt;
    assert key in r.entries ==> EntryAgrees(r, key);
  }

  lemma UnlockFrees<K(!new)>(actions: seq<Action<K>>, k: nat, thread: nat)
    requires k <= |actions| && PhaseOf(StateAt(actions, k), thread).Holding?
    ensures var r := StateAt(actions, k); var phase := PhaseOf(r, thread); var t := Step(r, Unlock(thread));
            && t.threads == r.threads[thread := Releasing(phase.key, phase.mutation)] && t.entries == r.entries
            && phase.mutation in t.heap && t.heap[phase.mutation].holder.None?
  {
    AlwaysConsistent(actions, k);
    var r := StateAt(actions, k);
    hide StateAt;
    assert ThreadAgrees(r, thread);
  }

  lemma LeaveForgets<K(!new)>(actions: seq<Action<K>>, k: nat, thread: nat)
    requires k <= |actions| && PhaseOf(StateAt(actions, k), thread).Releasing?
    ensures var r := StateAt(actions, k); var phase := PhaseOf(r, thread); var t := Step(r, Leave(thread));
            && t.threads == r.threads - {thread}
            && t.entries == if Users(r, phase.key) == {thread} then r.entries - {phase.key} else r.entries
  {
    AlwaysConsistent(actions, k);
    var r := StateAt(actions, k);
    var key := PhaseOf(r, thread).key;
    hide StateAt;
    assert ThreadAgrees(r, thread) && EntryAgrees(r, key);
    assert thread in Users(r, key) && |Users(r, key) - {thread}| == |Users(r, key)| - 1;
    hide Users;
    assert |Users(r, key)| == 1 ==> Users(r, key) - {thread} == {};
  }

  // ---- The registry as the source keeps it ----

  class SessionMutation {
    var references: int
    var locked: bool

    constructor ()
      ensures references == 0 && !locked
    {
      references, locked := 0, false;
    }
  }

  class MutationRegistry<K(==)> {
    var entries: map<K, SessionMutation>

    constructor ()
      ensures entries == map[]
    {
      entries := map[];
    }

    /** The fields agree with a model registry whose addresses stand for the objects. */
    ghost predicate Represents(r: Registry<K>, at: map<nat, SessionMutation>)
      reads this, at.Values
    {
      && at.Keys == r.heap.Keys && entries.Keys == r.entries.Keys
      && (forall a, b | a in at && b in at && at[a] == at[b] :: a == b)
      && (forall k | k in entries :: r.entries[k] in at && at[r.entries[k]] == entries[k])
      && (forall a | a in at :: at[a].references == r.heap[a].references && at[a].locked == r.heap[a].holder.Some?)
    }

    /** lock, up to the point where it waits for the entry's mutex: it is the Enter step. */
    method Reserve(identifier: K, ghost r: Registry<K>, ghost at: map<nat, SessionMutation>, ghost thread: nat,
                   ghost newId: nat)
      returns (mutation: SessionMutation, ghost at': map<nat, SessionMutation>)
      requires Represents(r, at) && PhaseOf(r, thread) == Outside && newId !in r.heap
      modifies this, entries.Values
      ensures Represents(Step(r, Enter(thread, identifier, newId)), at')
      ensures at' == if identifier in old(entries) then at else at[newId := mutation]
      ensures identifier in old(entries) ==> mutation == old(entries)[identifier]
      ensures identifier !in old(entries) ==> fresh(mutation)
    {
      at' := at;
      if identifier in entries {
        mutation := entries[identifier];
        assert mutation == at[r.entries[identifier]];
      } else {
        mutation := new SessionMutation();
        entries := entries[identifier := mutation];
        at' := at[newId := mutation];
      }
      mutation.references := mutation.references + 1;
    }

    /** The second half of the release closure, after the entry's mutex is unlocked: it is the Leave step. */
    method Forget(identifier: K, mutation: SessionMutation, ghost r: Registry<K>, ghost at: map<nat, SessionMutation>,
                  ghost thread: nat)
      requires Represents(r, at) && PhaseOf(r, thread).Releasing? && PhaseOf(r, thread).key == identifier
      requires PhaseOf(r, thread).mutation in at && at[PhaseOf(r, thread).mutation] == mutation
      modifies this, mutation
      ensures Represents(Step(r, Leave(thread)), at)
    {
      mutation.references := mutation.references - 1;
      if mutation.references == 0 {
        entries := entries - {identifier};
      }
    }
  }
}
