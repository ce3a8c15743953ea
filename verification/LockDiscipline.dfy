/**
  Which clients the LockStore needs: an unlock of an unlocked mutex can happen exactly
  when some thread's script, run on its own, would come to unlock a name it does not hold.
 */
module LockDiscipline {
  import opened Wrappers
  import opened LockProtocol
  import LockRefinement
  import LockLiveness

  /** The script of the thread is bound to reach an unlock of a name it does not hold. */
  predicate Doomed(th: Thread) {
    if th.pc.Idle? then !Tame(th.held, th.todo) else !TameCall(th.held, th.pc.op, th.todo)
  }

  /** Only `t` has ever moved, and the shared state is what its own calls made of it. */
  ghost predicate Solo(s: State, t: nat) {
    && t < |s.threads| && s.enabled && !s.crashed
    && s.global == (if Critical(s.threads[t].pc) then Some(t) else None)
    && EntriesOk(s)
    && (forall k | HasEntry(s, k) :: s.mutexes[Entry(s, k)] <==> k in s.threads[t].held)
    && (forall k | k in s.threads[t].held :: HasEntry(s, k))
    && Placed(s, s.threads[t].pc)
  }

  /** What `getLock` has established when the thread is at `pc`. */
  predicate Placed(s: State, pc: Pc) {
    match pc
    case AtFind(op) => op.key.store in s.stores
    case AtReturn(op) => HasEntry(s, op.key)
    case AtRelease(op, p) => HasEntry(s, op.key) && Entry(s, op.key) == p
    case AtMutex(op, p) => HasEntry(s, op.key) && Entry(s, op.key) == p
    case _ => true
  }

  lemma SoloEntries(s: State, t: nat)
    requires Solo(s, t) && Enabled(s, t) && !Step(s, t).crashed
    ensures EntriesOk(Step(s, t))
  {
    var s' := Step(s, t);
    forall k | HasEntry(s', k) ensures Entry(s', k) < |s'.mutexes| {
      EntriesOnlyGrow(s, t, k);
    }
    forall k, k' | HasEntry(s', k) && HasEntry(s', k') && k != k' ensures Entry(s', k) != Entry(s', k') {
      EntriesOnlyGrow(s, t, k);
      EntriesOnlyGrow(s, t, k');
    }
  }

  lemma SoloLocked(s: State, t: nat, k: Key)
    requires Solo(s, t) && Enabled(s, t) && !Step(s, t).crashed && EntriesOk(Step(s, t))
    ensures var s' := Step(s, t);
      && (HasEntry(s', k) ==> (s'.mutexes[Entry(s', k)] <==> k in s'.threads[t].held))
      && (k in s'.threads[t].held ==> HasEntry(s', k))
  {
    EntriesOnlyGrow(s, t, k);
  }

  /** A doomed thread on its own is never blocked; its next step crashes or leaves it doomed. */
  lemma DoomedRuns(s: State, t: nat)
    requires Solo(s, t) && Doomed(s.threads[t])
    ensures Enabled(s, t)
    ensures Step(s, t).crashed ||
      (Solo(Step(s, t), t) && Doomed(Step(s, t).threads[t]) &&
       LockLiveness.Remaining(Step(s, t).threads[t]) < LockLiveness.Remaining(s.threads[t]))
  {
    if !Step(s, t).crashed {
      SoloEntries(s, t);
      forall k {
        SoloLocked(s, t, k);
      }
      var pc := s.threads[t].pc;
      if !pc.Idle? { EntriesOnlyGrow(s, t, pc.op.key); }
    }
  }

  /** Run alone, a doomed thread brings the process down. */
  lemma {:induction false} DoomedCrashes(s: State, t: nat) returns (sched: seq<nat>)
    requires Solo(s, t) && Doomed(s.threads[t])
    ensures Legal(s, sched) && Exec(s, sched).crashed
    decreases LockLiveness.Remaining(s.threads[t])
  {
    DoomedRuns(s, t);
    var rest := [];
    if !Step(s, t).crashed {
      rest := DoomedCrashes(Step(s, t), t);
    }
    sched := [t] + rest;
    assert sched[1..] == rest;
  }

  /** With the lock flag off no call touches a mutex. */
  lemma {:induction false} DisabledNeverCrashes(s: State, sched: seq<nat>)
    requires !s.enabled && !s.crashed && Legal(s, sched)
    requires forall t | 0 <= t < |s.threads| :: s.threads[t].pc.Idle?
    ensures !Exec(s, sched).crashed
    decreases |sched|
  {
    if sched != [] {
      DisabledNeverCrashes(Step(s, sched[0]), sched[1..]);
    }
  }

  ghost predicate CanCrash(s: State) {
    exists sched :: Legal(s, sched) && Exec(s, sched).crashed
  }

  /**
    The exact discipline: some interleaving ends in an unlock of an unlocked mutex if and
    only if locking is enabled and some thread's script is not tame.
   */
  lemma CrashesExactlyWhenNotTame(s: State)
    requires Fresh(s)
    ensures CanCrash(s) <==> s.enabled && exists t :: 0 <= t < |s.threads| && !Tame({}, s.threads[t].todo)
  {
    if !s.enabled {
      forall sched | Legal(s, sched) ensures !Exec(s, sched).crashed {
        DisabledNeverCrashes(s, sched);
      }
    } else if t :| 0 <= t < |s.threads| && !Tame({}, s.threads[t].todo) {
      var sched := DoomedCrashes(s, t);
    } else {
      forall sched | Legal(s, sched) ensures !Exec(s, sched).crashed {
        LockRefinement.LockStoreIsSafe(s, sched);
      }
    }
  }

  // ---------- the discipline, place by place ----------

  /** What a thread on its own holds after the calls of `done`. */
  function HeldAfter(held: set<Key>, done: seq<Op>): set<Key>
    decreases |done|
  {
    if done == [] then held else HeldAfter(After(held, done[0]), done[1..])
  }

  /** The call at place `j` locks a name that is held already. */
  predicate Relocks(held: set<Key>, todo: seq<Op>, j: nat)
    requires j < |todo|
  {
    todo[j].Lock? && todo[j].key in HeldAfter(held, todo[..j])
  }

  /** The call at place `i` is no unlock, or of a name held there, or it is never reached. */
  ghost predicate Safe(held: set<Key>, todo: seq<Op>, i: nat)
    requires i < |todo|
  {
    || (todo[i].Unlock? ==> todo[i].key in HeldAfter(held, todo[..i]))
    || exists j | 0 <= j < i :: Relocks(held, todo, j)
  }

  /** Places of the script seen from after its first call. */
  lemma SafeShifts(held: set<Key>, todo: seq<Op>, i: nat)
    requires 0 < i < |todo| && !Relocks(held, todo, 0)
    ensures Safe(held, todo, i) <==> Safe(After(held, todo[0]), todo[1..], i - 1)
  {
    var rest, next := todo[1..], After(held, todo[0]);
    assert todo[..i][1..] == rest[..i - 1];
    forall j | 0 < j < i ensures Relocks(held, todo, j) <==> Relocks(next, rest, j - 1) {
      assert todo[..j][1..] == rest[..j - 1];
    }
    if j :| 0 <= j < i && Relocks(held, todo, j) { assert Relocks(next, rest, j - 1); }
    if j :| 0 <= j < i - 1 && Relocks(next, rest, j) { assert Relocks(held, todo, j + 1); }
  }

  /**
    A script is tame if and only if every unlock in it is of a name held at that place, up
    to its first lock of a name it already holds.
   */
  lemma {:induction false} TameMeans(held: set<Key>, todo: seq<Op>)
    ensures Tame(held, todo) <==> forall i | 0 <= i < |todo| :: Safe(held, todo, i)
    decreases |todo|
  {
    if todo != [] {
      var rest, next := todo[1..], After(held, todo[0]);
      TameMeans(next, rest);
      assert todo[..0] == [];
      if Relocks(held, todo, 0) {
        assert forall i | 0 < i < |todo| :: Safe(held, todo, i);
      } else {
        forall i | 0 < i < |todo| ensures Safe(held, todo, i) <==> Safe(next, rest, i - 1) {
          SafeShifts(held, todo, i);
        }
        if forall i | 0 <= i < |todo| :: Safe(held, todo, i) {
          assert Safe(held, todo, 0);
          forall i | 0 <= i < |rest| ensures Safe(next, rest, i) { assert Safe(held, todo, i + 1); }
        }
      }
    }
  }

  // ---------- which clients need the lock flag ----------

  /** With the flag off a call is one step, which only the client notices. */
  lemma {:induction false} DisabledRun(s: State, t: nat, n: nat) returns (sched: seq<nat>)
    requires !s.enabled && !s.crashed && t < |s.threads| && s.threads[t].pc.Idle? && n <= |s.threads[t].todo|
    ensures Legal(s, sched)
    ensures var th := s.threads[t];
      Exec(s, sched) == s.(threads := s.threads[t := Thread(Idle, th.todo[n..], HeldAfter(th.held, th.todo[..n]))])
    decreases n
  {
    if n == 0 {
      sched := [];
    } else {
      var th := s.threads[t];
      var rest := DisabledRun(Step(s, t), t, n - 1);
      sched := [t] + rest;
      assert sched[1..] == rest;
      assert th.todo[..n][1..] == th.todo[1..][..n - 1] && th.todo[1..][n - 1..] == th.todo[n..];
    }
  }

  lemma {:induction false} AfterLock(held: set<Key>, done: seq<Op>, k: Key)
    requires done != [] && done[|done| - 1] == Lock(k)
    ensures k in HeldAfter(held, done)
    decreases |done|
  {
    if |done| > 1 { AfterLock(After(held, done[0]), done[1..], k); }
  }

  lemma {:induction false} ThenRun(s: State, front: seq<nat>, back: seq<nat>)
    requires Legal(s, front) && Legal(Exec(s, front), back)
    ensures Legal(s, front + back) && Exec(s, front + back) == Exec(Exec(s, front), back)
    decreases |front|
  {
    if front == [] {
      assert front + back == back;
    } else {
      ThenRun(Step(s, front[0]), front[1..], back);
      assert (front + back)[1..] == front[1..] + back;
    }
  }

  /** Threads `t` and `u` both have a lock of `k` in their scripts. */
  predicate BothLock(s: State, t: nat, u: nat, k: Key) {
    t < |s.threads| && u < |s.threads| && Lock(k) in s.threads[t].todo && Lock(k) in s.threads[u].todo
  }

  /** Without the flag two threads that both lock `k` can both come to hold it. */
  lemma BothHold(s: State, t: nat, u: nat, k: Key) returns (sched: seq<nat>)
    requires Fresh(s) && !s.enabled && t != u && BothLock(s, t, u, k)
    ensures Legal(s, sched) && Holds(Exec(s, sched), t, k) && Holds(Exec(s, sched), u, k)
  {
    var n: nat :| n < |s.threads[t].todo| && s.threads[t].todo[n] == Lock(k);
    var m: nat :| m < |s.threads[u].todo| && s.threads[u].todo[m] == Lock(k);
    var front := DisabledRun(s, t, n + 1);
    var s1 := Exec(s, front);
    var back := DisabledRun(s1, u, m + 1);
    ThenRun(s, front, back);
    AfterLock({}, s.threads[t].todo[..n + 1], k);
    AfterLock({}, s.threads[u].todo[..m + 1], k);
    sched := front + back;
  }

  /** Without the flag a thread holds only what its script locks. */
  lemma {:induction false} HeldWasLocked(s: State, sched: seq<nat>, t: nat, k: Key)
    requires !s.enabled && Legal(s, sched) && t < |s.threads|
    requires forall u | 0 <= u < |s.threads| :: s.threads[u].pc.Idle?
    requires Holds(Exec(s, sched), t, k)
    ensures k in s.threads[t].held || Lock(k) in s.threads[t].todo
    decreases |sched|
  {
    if sched != [] {
      HeldWasLocked(Step(s, sched[0]), sched[1..], t, k);
    }
  }

  ghost predicate AlwaysExclusive(s: State) {
    forall sched | Legal(s, sched) :: MutuallyExclusive(Exec(s, sched))
  }

  /**
    Clients that keep the discipline exclude each other in every run if and only if the
    flag is on, or no two of their scripts ever lock the same name.
   */
  lemma ExclusiveExactly(s: State)
    requires Init(s)
    ensures AlwaysExclusive(s) <==> s.enabled || forall t, u, k | BothLock(s, t, u, k) :: t == u
  {
    if s.enabled {
      forall sched | Legal(s, sched) ensures MutuallyExclusive(Exec(s, sched)) {
        LockRefinement.LockStoreIsSafe(s, sched);
      }
    } else if t, u, k :| BothLock(s, t, u, k) && t != u {
      var sched := BothHold(s, t, u, k);
      assert !MutuallyExclusive(Exec(s, sched));
    } else {
      forall sched, t, u, k | Legal(s, sched) && Holds(Exec(s, sched), t, k) && Holds(Exec(s, sched), u, k)
        ensures t == u
      {
        SameThreads(s, sched);
        HeldWasLocked(s, sched, t, k);
        HeldWasLocked(s, sched, u, k);
        assert BothLock(s, t, u, k);
      }
    }
  }

  lemma {:induction false} SameThreads(s: State, sched: seq<nat>)
    requires Legal(s, sched)
    ensures |Exec(s, sched).threads| == |s.threads|
    decreases |sched|
  {
    if sched != [] { SameThreads(Step(s, sched[0]), sched[1..]); }
  }
}
