/**
  The named-lock service of pkg/utils/lock_store.go as an interleaved step system.

  Any number of threads run scripts of Lock and Unlock calls against any number of
  LockStores.  All the stores share one package-global mutex, and a named mutex is an
  address in a heap of mutex objects.  One call takes seven steps; between the sixth
  and the seventh the thread carries a mutex pointer while it holds nothing, which is
  the unprotected window of the source.
 */
module LockProtocol {
  import opened Wrappers

  /** A name in a particular LockStore. */
  datatype Key = Key(store: nat, name: string)

  datatype Op = Lock(key: Key) | Unlock(key: Key)

  /** Where a thread stands inside `Lock` or `Unlock`. */
  datatype Pc =
    | Idle
    | AtGlobal(op: Op)             // about to lock lockstoremux
    | AtInit(op: Op)               // about to run checkAndInitLockStore
    | AtFind(op: Op)               // about to create the entry if it is missing
    | AtReturn(op: Op)             // about to read the entry for the return value
    | AtRelease(op: Op, ptr: nat)  // about to run the deferred unlock of lockstoremux
    | AtMutex(op: Op, ptr: nat)    // holds only a pointer; about to lock or unlock it

  /** `held` is what the client knows it has locked; a Go mutex itself has no owner. */
  datatype Thread = Thread(pc: Pc, todo: seq<Op>, held: set<Key>)

  /**
    `stores` has no entry for a LockStore whose map is still nil.  `mutexes[p]` tells
    whether the mutex at address `p` is locked.  `crashed` records a Go runtime failure:
    unlock of an unlocked mutex, assignment into a nil map, use of a nil pointer.
   */
  datatype State = State(
    enabled: bool,
    global: Option<nat>,
    stores: map<nat, map<string, nat>>,
    mutexes: seq<bool>,
    threads: seq<Thread>,
    crashed: bool)

  predicate HasEntry(s: State, k: Key) {
    k.store in s.stores && k.name in s.stores[k.store]
  }

  function Entry(s: State, k: Key): nat
    requires HasEntry(s, k)
  {
    s.stores[k.store][k.name]
  }

  predicate Holds(s: State, t: nat, k: Key) {
    t < |s.threads| && k in s.threads[t].held
  }

  // ---------- steps ----------

  function Goto(s: State, t: nat, pc: Pc): State
    requires t < |s.threads|
  {
    s.(threads := s.threads[t := s.threads[t].(pc := pc)])
  }

  /** The client's view once the call `op` has returned. */
  function After(held: set<Key>, op: Op): set<Key> {
    match op
    case Lock(k) => held + {k}
    case Unlock(k) => held - {k}
  }

  function Finish(s: State, t: nat, op: Op): State
    requires t < |s.threads|
  {
    var th := s.threads[t];
    s.(threads := s.threads[t := Thread(Idle, th.todo, After(th.held, op))])
  }

  predicate Enabled(s: State, t: nat) {
    && t < |s.threads|
    && !s.crashed
    && match s.threads[t].pc
       case Idle => s.threads[t].todo != []
       case AtGlobal(_) => s.global.None?
       case AtMutex(Lock(_), p) => p < |s.mutexes| ==> !s.mutexes[p]
       case _ => true
  }

  function Step(s: State, t: nat): State
    requires Enabled(s, t)
  {
    var th := s.threads[t];
    match th.pc
    case Idle =>
      var s0 := s.(threads := s.threads[t := th.(todo := th.todo[1..])]);
      if s.enabled then Goto(s0, t, AtGlobal(th.todo[0])) else Finish(s0, t, th.todo[0])
    case AtGlobal(op) => Goto(s, t, AtInit(op)).(global := Some(t))
    case AtInit(op) =>
      var st := op.key.store;
      var s0 := if st in s.stores then s else s.(stores := s.stores[st := map[]]);
      Goto(s0, t, AtFind(op))
    case AtFind(op) =>
      var st := op.key.store;
      if HasEntry(s, op.key) then Goto(s, t, AtReturn(op))
      else if st !in s.stores then s.(crashed := true)
      else
        var names: map<string, nat> := s.stores[st][op.key.name := |s.mutexes|];
        Goto(s.(stores := s.stores[st := names], mutexes := s.mutexes + [false]), t, AtReturn(op))
    case AtReturn(op) =>
      if HasEntry(s, op.key) then Goto(s, t, AtRelease(op, Entry(s, op.key)))
      else s.(crashed := true)
    case AtRelease(op, p) => Goto(s, t, AtMutex(op, p)).(global := None)
    case AtMutex(Lock(k), p) =>
      if p < |s.mutexes| then Finish(s, t, Lock(k)).(mutexes := s.mutexes[p := true])
      else s.(crashed := true)
    case AtMutex(Unlock(k), p) =>
      if p < |s.mutexes| && s.mutexes[p] then Finish(s, t, Unlock(k)).(mutexes := s.mutexes[p := false])
      else s.(crashed := true)
  }

  // ---------- runs ----------

  /** A schedule names the thread that takes each step. */
  predicate Legal(s: State, sched: seq<nat>)
    decreases |sched|
  {
    sched == [] || (Enabled(s, sched[0]) && Legal(Step(s, sched[0]), sched[1..]))
  }

  function Exec(s: State, sched: seq<nat>): State
    requires Legal(s, sched)
    decreases |sched|
  {
    if sched == [] then s else Exec(Step(s, sched[0]), sched[1..])
  }

  /** All the states a run goes through, first and last included. */
  function Trace(s: State, sched: seq<nat>): (tr: seq<State>)
    requires Legal(s, sched)
    ensures |tr| == |sched| + 1 && tr[0] == s && tr[|sched|] == Exec(s, sched)
    decreases |sched|
  {
    if sched == [] then [s] else [s] + Trace(Step(s, sched[0]), sched[1..])
  }

  // ---------- the client discipline ----------

  /**
    Between holding `held` and finishing, a thread never unlocks a name it does not hold.
    What follows a second Lock of a held name does not matter: the thread waits there for
    ever, since nobody else may unlock the name.
   */
  predicate Tame(held: set<Key>, todo: seq<Op>)
    decreases |todo|, 0
  {
    todo == [] || TameCall(held, todo[0], todo[1..])
  }

  /** The same for a thread inside the call `op`, with `todo` still to come. */
  predicate TameCall(held: set<Key>, op: Op, todo: seq<Op>)
    decreases |todo|, 1
  {
    match op
    case Lock(k) => k in held || Tame(held + {k}, todo)
    case Unlock(k) => k in held && Tame(held - {k}, todo)
  }

  /** Nothing has happened yet: no map, no mutex, nobody inside a call. */
  predicate Fresh(s: State) {
    && s.global == None && s.stores == map[] && s.mutexes == [] && !s.crashed
    && (forall t | 0 <= t < |s.threads| :: s.threads[t].pc == Idle && s.threads[t].held == {})
  }

  predicate Init(s: State) {
    Fresh(s) && forall t | 0 <= t < |s.threads| :: Tame({}, s.threads[t].todo)
  }

  // ---------- the inductive invariant ----------

  predicate Critical(pc: Pc) {
    pc.AtInit? || pc.AtFind? || pc.AtReturn? || pc.AtRelease?
  }

  predicate InCritical(s: State, t: nat) {
    t < |s.threads| && Critical(s.threads[t].pc)
  }

  /** What a thread's own position says about the shared state. */
  predicate ThreadOk(s: State, t: nat)
    requires t < |s.threads|
  {
    var th := s.threads[t];
    if th.pc.Idle? then Tame(th.held, th.todo)
    else
      var op := th.pc.op;
      && TameCall(th.held, op, th.todo)
      && (th.pc.AtFind? ==> op.key.store in s.stores)
      && (th.pc.AtReturn? ==> HasEntry(s, op.key))
      && (th.pc.AtRelease? ==> HasEntry(s, op.key) && Entry(s, op.key) == th.pc.ptr)
      && (th.pc.AtMutex? ==> HasEntry(s, op.key) && Entry(s, op.key) == th.pc.ptr)
  }

  ghost predicate EntriesOk(s: State) {
    && (forall k | HasEntry(s, k) :: Entry(s, k) < |s.mutexes|)
    && (forall k, k' | HasEntry(s, k) && HasEntry(s, k') && k != k' :: Entry(s, k) != Entry(s, k'))
  }

  ghost predicate GlobalOk(s: State) {
    && (forall t: nat :: InCritical(s, t) <==> s.global == Some(t))
  }

  ghost predicate HeldOk(s: State) {
    && (forall t, k :: Holds(s, t, k) ==> HasEntry(s, k) && Entry(s, k) < |s.mutexes| && s.mutexes[Entry(s, k)])
    && (forall k | HasEntry(s, k) && Entry(s, k) < |s.mutexes| && s.mutexes[Entry(s, k)] :: exists t :: Holds(s, t, k))
    && MutuallyExclusive(s)
  }

  /** Mutual exclusion by name: no two threads hold one name of one store. */
  ghost predicate MutuallyExclusive(s: State) {
    forall t, t', k | Holds(s, t, k) && Holds(s, t', k) :: t == t'
  }

  ghost predicate Inv(s: State) {
    && s.enabled && !s.crashed
    && EntriesOk(s) && GlobalOk(s) && HeldOk(s)
    && (forall t | 0 <= t < |s.threads| :: ThreadOk(s, t))
  }

  /**
    Pointer stability, one step: an entry is never replaced or removed.  Only the
    `AtFind` step adds an entry, for its own name, at an address nobody has used.
   */
  lemma EntriesOnlyGrow(s: State, t: nat, k: Key)
    requires Enabled(s, t)
    ensures HasEntry(s, k) ==> HasEntry(Step(s, t), k) && Entry(Step(s, t), k) == Entry(s, k)
    ensures !HasEntry(s, k) && HasEntry(Step(s, t), k) ==>
      s.threads[t].pc == AtFind(Lock(k)) || s.threads[t].pc == AtFind(Unlock(k))
    ensures !HasEntry(s, k) && HasEntry(Step(s, t), k) ==>
      Entry(Step(s, t), k) == |s.mutexes| && Step(s, t).mutexes == s.mutexes + [false]
  {
    var pc := s.threads[t].pc;
    if pc.AtFind? && !HasEntry(s, pc.op.key) {
      assert k == Key(k.store, k.name) && pc.op.key == Key(pc.op.key.store, pc.op.key.name);
      assert pc.op == Lock(pc.op.key) || pc.op == Unlock(pc.op.key);
    }
  }

  lemma StepKeepsEntriesOk(s: State, t: nat)
    requires Inv(s) && Enabled(s, t)
    ensures EntriesOk(Step(s, t)) && !Step(s, t).crashed && Step(s, t).enabled
  {
    var s' := Step(s, t);
    assert ThreadOk(s, t);
    var pc := s.threads[t].pc;
    assert !pc.Idle? && pc.op.Unlock? ==> Holds(s, t, pc.op.key);
    forall k | HasEntry(s', k) ensures Entry(s', k) < |s'.mutexes| {
      EntriesOnlyGrow(s, t, k);
    }
    forall k, k' | HasEntry(s', k) && HasEntry(s', k') && k != k' ensures Entry(s', k) != Entry(s', k') {
      EntriesOnlyGrow(s, t, k);
      EntriesOnlyGrow(s, t, k');
    }
  }

  lemma StepKeepsGlobalOk(s: State, t: nat)
    requires Inv(s) && Enabled(s, t)
    ensures GlobalOk(Step(s, t))
  {
    assert ThreadOk(s, t) && (InCritical(s, t) <==> s.global == Some(t));
  }

  /** Who holds `k` after a step: only taking or releasing its mutex changes that. */
  lemma HoldsAfter(s: State, t: nat, u: nat, k: Key)
    requires Inv(s) && Enabled(s, t)
    ensures var pc := s.threads[t].pc;
      Holds(Step(s, t), u, k) <==>
        if u == t && pc.AtMutex? && pc.op.key == k then pc.op.Lock? else Holds(s, u, k)
  {
    assert ThreadOk(s, t);
    StepKeepsEntriesOk(s, t);
  }

  lemma HeldIsLocked(s: State, t: nat, u: nat, k: Key)
    requires Inv(s) && Enabled(s, t) && EntriesOk(Step(s, t)) && Holds(Step(s, t), u, k)
    ensures HasEntry(Step(s, t), k) && Step(s, t).mutexes[Entry(Step(s, t), k)]
  {
    assert ThreadOk(s, t);
    HoldsAfter(s, t, u, k);
    EntriesOnlyGrow(s, t, k);
    var pc := s.threads[t].pc;
    assert pc.AtMutex? && pc.op.Unlock? ==> Holds(s, t, pc.op.key);
  }

  lemma LockedIsHeld(s: State, t: nat, k: Key)
    requires Inv(s) && Enabled(s, t) && EntriesOk(Step(s, t))
    requires HasEntry(Step(s, t), k) && Step(s, t).mutexes[Entry(Step(s, t), k)]
    ensures exists u :: Holds(Step(s, t), u, k)
  {
    assert ThreadOk(s, t);
    EntriesOnlyGrow(s, t, k);
    if s.threads[t].pc.AtMutex? && s.threads[t].pc.op.key == k {
      HoldsAfter(s, t, t, k);
    } else {
      var u: nat :| Holds(s, u, k);
      HoldsAfter(s, t, u, k);
    }
  }

  lemma StepKeepsHeldOk(s: State, t: nat)
    requires Inv(s) && Enabled(s, t)
    ensures HeldOk(Step(s, t))
  {
    var s' := Step(s, t);
    StepKeepsEntriesOk(s, t);
    forall u, k | Holds(s', u, k)
      ensures HasEntry(s', k) && Entry(s', k) < |s'.mutexes| && s'.mutexes[Entry(s', k)]
    {
      HeldIsLocked(s, t, u, k);
    }
    forall k | HasEntry(s', k) && Entry(s', k) < |s'.mutexes| && s'.mutexes[Entry(s', k)]
      ensures exists u :: Holds(s', u, k)
    {
      LockedIsHeld(s, t, k);
    }
    forall u, u', k | Holds(s', u, k) && Holds(s', u', k) ensures u == u' {
      HoldsAfter(s, t, u, k);
      HoldsAfter(s, t, u', k);
      assert ThreadOk(s, t);
    }
  }

  lemma OwnThreadOk(s: State, t: nat)
    requires Inv(s) && Enabled(s, t)
    ensures t < |Step(s, t).threads| && ThreadOk(Step(s, t), t)
  {
    assert ThreadOk(s, t);
    var pc := s.threads[t].pc;
    if !pc.Idle? {
      assert pc.AtMutex? && pc.op.Lock? ==> !Holds(s, t, pc.op.key);
      EntriesOnlyGrow(s, t, pc.op.key);
    }
  }

  lemma StepKeepsThreadsOk(s: State, t: nat, u: nat)
    requires Inv(s) && Enabled(s, t) && u < |s.threads|
    ensures u < |Step(s, t).threads| && ThreadOk(Step(s, t), u)
  {
    if u == t {
      OwnThreadOk(s, t);
    } else {
      assert ThreadOk(s, u) && Step(s, t).threads[u] == s.threads[u];
      var pc := s.threads[u].pc;
      if !pc.Idle? {
        EntriesOnlyGrow(s, t, pc.op.key);
      }
    }
  }

  lemma StepKeepsInv(s: State, t: nat)
    requires Inv(s) && Enabled(s, t)
    ensures Inv(Step(s, t))
  {
    StepKeepsEntriesOk(s, t);
    StepKeepsGlobalOk(s, t);
    StepKeepsHeldOk(s, t);
    forall u | 0 <= u < |s.threads| ensures ThreadOk(Step(s, t), u) {
      StepKeepsThreadsOk(s, t, u);
    }
  }
}
