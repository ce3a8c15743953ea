/**
  Safety of the LockStore protocol over whole runs: the seven-step protocol refines an
  atomic table from names to owners, so mutual exclusion holds by name and not only by
  mutex object.
 */
module LockRefinement {
  import opened Wrappers
  import opened LockProtocol

  // ---------- the atomic lock table ----------

  /** Who owns each name, and which call each thread is waiting to have served. */
  datatype Table = Table(owner: map<Key, nat>, pending: seq<Option<Op>>)

  /** A thread announces a call, or has its announced call served in one atomic step. */
  ghost predicate Invokes(a: Table, a': Table, t: nat, op: Op) {
    && t < |a.pending| && a.pending[t] == None
    && a' == a.(pending := a.pending[t := Some(op)])
  }

  ghost predicate Serves(a: Table, a': Table, t: nat, op: Op) {
    && t < |a.pending| && a.pending[t] == Some(op)
    && a'.pending == a.pending[t := None]
    && match op
       case Lock(k) => k !in a.owner && a'.owner == a.owner[k := t]
       case Unlock(k) => k in a.owner && a.owner[k] == t && a'.owner == a.owner - {k}
  }

  ghost predicate TableStep(a: Table, a': Table, t: nat) {
    || a' == a
    || (exists op :: Invokes(a, a', t, op))
    || (exists op :: Serves(a, a', t, op))
  }

  // ---------- the abstraction ----------

  /** Who holds what, read off the threads one by one. */
  function Owners(threads: seq<Thread>): (owners: map<Key, nat>)
    ensures forall k | k in owners :: owners[k] < |threads| && k in threads[owners[k]].held
    ensures forall t, k | 0 <= t < |threads| && k in threads[t].held :: k in owners
  {
    if threads == [] then map[]
    else
      var last := |threads| - 1;
      Owners(threads[..last]) + map k | k in threads[last].held :: last
  }

  function Pending(pc: Pc): Option<Op> {
    if pc.Idle? then None else Some(pc.op)
  }

  function Abs(s: State): Table {
    Table(Owners(s.threads), seq(|s.threads|, t requires 0 <= t < |s.threads| => Pending(s.threads[t].pc)))
  }

  lemma OwnerIs(s: State, t: nat, k: Key)
    requires MutuallyExclusive(s)
    ensures k in Abs(s).owner && Abs(s).owner[k] == t <==> Holds(s, t, k)
  {
    if Holds(s, t, k) {
      assert k in Owners(s.threads);
      assert Holds(s, Owners(s.threads)[k], k);
    }
  }

  /** Two states agree on the owner of `k` when the same threads hold it in both. */
  lemma SameOwner(s: State, s': State, k: Key)
    requires MutuallyExclusive(s) && MutuallyExclusive(s')
    requires forall t :: Holds(s, t, k) <==> Holds(s', t, k)
    ensures k in Abs(s).owner <==> k in Abs(s').owner
    ensures k in Abs(s).owner ==> Abs(s).owner[k] == Abs(s').owner[k]
  {
    if k in Abs(s).owner { OwnerIs(s, Abs(s).owner[k], k); OwnerIs(s', Abs(s).owner[k], k); }
    if k in Abs(s').owner { OwnerIs(s, Abs(s').owner[k], k); OwnerIs(s', Abs(s').owner[k], k); }
  }

  lemma QuietOwner(s: State, t: nat, k: Key)
    requires Inv(s) && Enabled(s, t) && !s.threads[t].pc.AtMutex?
    requires MutuallyExclusive(Step(s, t))
    ensures var own, own' := Abs(s).owner, Abs(Step(s, t)).owner;
      (k in own <==> k in own') && (k in own ==> own[k] == own'[k])
  {
    forall u: nat ensures Holds(s, u, k) <==> Holds(Step(s, t), u, k) {
      HoldsAfter(s, t, u, k);
    }
    SameOwner(s, Step(s, t), k);
  }

  lemma SameOwners(own: map<Key, nat>, own': map<Key, nat>)
    requires forall k :: (k in own <==> k in own') && (k in own ==> own[k] == own'[k])
    ensures own == own'
  {
    assert own.Keys == own'.Keys;
  }

  lemma StepKeepsExclusive(s: State, t: nat)
    requires Inv(s) && Enabled(s, t)
    ensures MutuallyExclusive(Step(s, t))
  {
    StepKeepsInv(s, t);
  }

  /** A step that does not return from a call leaves the table's owners alone. */
  lemma QuietOwners(s: State, t: nat)
    requires Inv(s) && Enabled(s, t) && !s.threads[t].pc.AtMutex?
    ensures Abs(Step(s, t)).owner == Abs(s).owner
  {
    var own, own' := Abs(s).owner, Abs(Step(s, t)).owner;
    StepKeepsExclusive(s, t);
    forall k ensures (k in own <==> k in own') && (k in own ==> own[k] == own'[k]) {
      QuietOwner(s, t, k);
    }
    SameOwners(own, own');
  }

  /** Taking or releasing the named mutex changes the owner of that one name. */
  lemma ServeOwners(s: State, t: nat, j: Key)
    requires Inv(s) && Enabled(s, t) && s.threads[t].pc.AtMutex?
    ensures var own, own', op := Abs(s).owner, Abs(Step(s, t)).owner, s.threads[t].pc.op;
      if j != op.key then (j in own <==> j in own') && (j in own ==> own[j] == own'[j])
      else if op.Lock? then j !in own && j in own' && own'[j] == t
      else j in own && own[j] == t && j !in own'
  {
    var s' := Step(s, t);
    var op := s.threads[t].pc.op;
    StepKeepsInv(s, t);
    assert ThreadOk(s, t);
    if j != op.key {
      assert forall u :: Holds(s, u, j) <==> Holds(s', u, j);
      SameOwner(s, s', j);
    } else if op.Lock? {
      if j in Abs(s).owner { OwnerIs(s, Abs(s).owner[j], j); }
      assert Holds(s', t, j);
      OwnerIs(s', t, j);
    } else {
      assert Holds(s, t, j) && !Holds(s', t, j);
      OwnerIs(s, t, j);
      assert forall u | Holds(s', u, j) :: Holds(s, u, j);
      if j in Abs(s').owner { OwnerIs(s', Abs(s').owner[j], j); }
    }
  }

  lemma ServesByOwners(a: Table, a': Table, t: nat, op: Op)
    requires t < |a.pending| && a.pending[t] == Some(op) && a'.pending == a.pending[t := None]
    requires forall j | j != op.key :: (j in a.owner <==> j in a'.owner) && (j in a.owner ==> a.owner[j] == a'.owner[j])
    requires if op.Lock? then op.key !in a.owner && op.key in a'.owner && a'.owner[op.key] == t
             else op.key in a.owner && a.owner[op.key] == t && op.key !in a'.owner
    ensures Serves(a, a', t, op)
  {
    if op.Lock? {
      assert a'.owner == a.owner[op.key := t];
    } else {
      assert a'.owner == a.owner - {op.key};
    }
  }

  /** Apart from the owners, a step only moves the stepping thread's pending call. */
  lemma StepPending(s: State, t: nat)
    requires Inv(s) && Enabled(s, t)
    ensures |Abs(s).pending| == |s.threads|
    ensures Abs(Step(s, t)).pending == Abs(s).pending[t := Pending(Step(s, t).threads[t].pc)]
    ensures Pending(Step(s, t).threads[t].pc) ==
      if s.threads[t].pc.Idle? then Some(s.threads[t].todo[0])
      else if s.threads[t].pc.AtMutex? then None else Some(s.threads[t].pc.op)
  {
    StepKeepsEntriesOk(s, t);
  }

  /**
    Forward simulation: each protocol step is an atomic step of the table by the same
    thread.  The call appears when `getLock` begins, it is served when the named mutex
    is taken or released, and every other step is invisible.
   */
  lemma StepRefines(s: State, t: nat)
    requires Inv(s) && Enabled(s, t)
    ensures TableStep(Abs(s), Abs(Step(s, t)), t)
    ensures s.threads[t].pc.Idle? ==> Invokes(Abs(s), Abs(Step(s, t)), t, s.threads[t].todo[0])
    ensures s.threads[t].pc.AtMutex? ==> Serves(Abs(s), Abs(Step(s, t)), t, s.threads[t].pc.op)
    ensures !s.threads[t].pc.Idle? && !s.threads[t].pc.AtMutex? ==> Abs(Step(s, t)) == Abs(s)
  {
    var a, a' := Abs(s), Abs(Step(s, t));
    StepPending(s, t);
    if s.threads[t].pc.AtMutex? {
      forall j { ServeOwners(s, t, j); }
      ServeOwners(s, t, s.threads[t].pc.op.key);
      ServesByOwners(a, a', t, s.threads[t].pc.op);
    } else if s.threads[t].pc.Idle? {
      QuietOwners(s, t);
      assert Invokes(a, a', t, s.threads[t].todo[0]);
    } else {
      QuietOwners(s, t);
      assert a'.pending == a.pending;
    }
  }

  lemma InitHolds(s: State)
    requires Init(s) && s.enabled
    ensures Inv(s) && Abs(s).owner == map[]
  {
    assert forall t, k :: !Holds(s, t, k);
    assert forall t: nat :: !InCritical(s, t);
    forall t | 0 <= t < |s.threads| ensures ThreadOk(s, t) {
      assert s.threads[t].pc == Idle && Tame({}, s.threads[t].todo);
    }
  }

  /**
    Every run, under every interleaving, is a run of the atomic table; the invariant,
    and with it mutual exclusion by name and the absence of Go runtime failures, holds
    in every state of it.
   */
  lemma {:induction false} RunRefines(s: State, sched: seq<nat>)
    requires Inv(s) && Legal(s, sched)
    ensures forall i | 0 <= i <= |sched| :: Inv(Trace(s, sched)[i])
    ensures forall i | 0 <= i < |sched| :: TableStep(Abs(Trace(s, sched)[i]), Abs(Trace(s, sched)[i + 1]), sched[i])
    decreases |sched|
  {
    if sched != [] {
      var t := sched[0];
      StepKeepsInv(s, t);
      StepRefines(s, t);
      RunRefines(Step(s, t), sched[1..]);
      var tr, rest := Trace(s, sched), Trace(Step(s, t), sched[1..]);
      assert tr == [s] + rest;
      forall i | 0 <= i <= |sched| ensures Inv(tr[i]) {
        if i > 0 { assert tr[i] == rest[i - 1]; }
      }
      forall i | 0 <= i < |sched| ensures TableStep(Abs(tr[i]), Abs(tr[i + 1]), sched[i]) {
        if i > 0 {
          assert tr[i] == rest[i - 1] && tr[i + 1] == rest[i] && sched[1..][i - 1] == sched[i];
        }
      }
    }
  }

  /** At most one thread holds a given name of a given store, and no run crashes. */
  lemma LockStoreIsSafe(s: State, sched: seq<nat>)
    requires Init(s) && s.enabled && Legal(s, sched)
    ensures MutuallyExclusive(Exec(s, sched))
    ensures !Exec(s, sched).crashed
  {
    InitHolds(s);
    RunRefines(s, sched);
    assert Inv(Trace(s, sched)[|sched|]);
  }

  // ---------- pointer stability and the size of a store ----------

  /** Once a name has a mutex it keeps that mutex for the rest of the run. */
  lemma {:induction false} EntriesAreStable(s: State, sched: seq<nat>, k: Key)
    requires Legal(s, sched) && HasEntry(s, k)
    ensures HasEntry(Exec(s, sched), k) && Entry(Exec(s, sched), k) == Entry(s, k)
    decreases |sched|
  {
    if sched != [] {
      EntriesOnlyGrow(s, sched[0], k);
      EntriesAreStable(Step(s, sched[0]), sched[1..], k);
    }
  }

  /**
    The pointer a thread carries after `getLock` has released the global mutex is still
    the current entry when the thread comes to use it, however many steps others took,
    and no other name of any store shares it.
   */
  lemma CarriedPointerIsCurrent(s: State, sched: seq<nat>, t: nat, k: Key)
    requires Inv(s) && Legal(s, sched)
    requires t < |s.threads| && s.threads[t].pc.AtMutex?
    ensures var p, s' := s.threads[t].pc.ptr, Exec(s, sched);
      && HasEntry(s', s.threads[t].pc.op.key)
      && (HasEntry(s', k) && Entry(s', k) == p <==> k == s.threads[t].pc.op.key)
  {
    assert ThreadOk(s, t);
    EntriesAreStable(s, sched, s.threads[t].pc.op.key);
    RunRefines(s, sched);
    assert Inv(Trace(s, sched)[|sched|]);
  }

  /** The names whose look-up in `getLock` has run during the schedule. */
  function Looked(s: State, sched: seq<nat>): set<Key>
    requires Legal(s, sched)
    decreases |sched|
  {
    if sched == [] then {}
    else
      var pc := s.threads[sched[0]].pc;
      (if pc.AtFind? then {pc.op.key} else {}) + Looked(Step(s, sched[0]), sched[1..])
  }

  lemma {:induction false} EntriesAreTheLooked(s: State, sched: seq<nat>, k: Key)
    requires Inv(s) && Legal(s, sched)
    ensures HasEntry(Exec(s, sched), k) <==> HasEntry(s, k) || k in Looked(s, sched)
    decreases |sched|
  {
    if sched != [] {
      var t := sched[0];
      assert ThreadOk(s, t);
      EntriesOnlyGrow(s, t, k);
      StepKeepsInv(s, t);
      EntriesAreTheLooked(Step(s, t), sched[1..], k);
    }
  }

  function NamesOf(keys: set<Key>, store: nat): set<string> {
    set k | k in keys && k.store == store :: k.name
  }

  /** The size of a store is the number of distinct names ever looked up in it. */
  lemma StoreSizeCountsNames(s: State, sched: seq<nat>, store: nat)
    requires Init(s) && s.enabled && Legal(s, sched)
    ensures var s' := Exec(s, sched);
      (if store in s'.stores then |s'.stores[store]| else 0) == |NamesOf(Looked(s, sched), store)|
  {
    InitHolds(s);
    var s' := Exec(s, sched);
    var names := NamesOf(Looked(s, sched), store);
    forall name ensures HasEntry(s', Key(store, name)) <==> name in names {
      EntriesAreTheLooked(s, sched, Key(store, name));
      assert Key(store, name).name == name;
    }
    if store in s'.stores {
      assert s'.stores[store].Keys == names;
    } else {
      assert forall name :: !HasEntry(s', Key(store, name));
      assert names == {};
    }
  }
}
