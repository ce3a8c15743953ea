/**
  Progress of the LockStore protocol: when clients acquire names in a fixed order and
  release what they lock, no interleaving gets stuck and every run has the same length.
 */
module LockLiveness {
  import opened Wrappers
  import opened LockProtocol
  import opened Sums
  import LockRefinement

  // ---------- a measure every step decreases by one ----------

  function PcWeight(pc: Pc): nat {
    match pc
    case Idle => 0
    case AtGlobal(_) => 6
    case AtInit(_) => 5
    case AtFind(_) => 4
    case AtReturn(_) => 3
    case AtRelease(_, _) => 2
    case AtMutex(_, _) => 1
  }

  /** The steps a thread still has to take to finish its script. */
  function Remaining(th: Thread): nat {
    7 * |th.todo| + PcWeight(th.pc)
  }

  function Total(threads: seq<Thread>): nat { Sum(threads, Remaining) }

  lemma StepShortens(s: State, t: nat)
    requires Inv(s) && Enabled(s, t)
    ensures Total(Step(s, t).threads) == Total(s.threads) - 1
    ensures Step(s, t).threads == s.threads[t := Step(s, t).threads[t]]
  {
    StepKeepsEntriesOk(s, t);
    var th' := Step(s, t).threads[t];
    assert Step(s, t).threads == s.threads[t := th'];
    assert Remaining(th') == Remaining(s.threads[t]) - 1;
    SumUpdate(s.threads, Remaining, t, th');
  }

  lemma {:induction false} RunLength(s: State, sched: seq<nat>)
    requires Inv(s) && Legal(s, sched)
    ensures |sched| + Total(Exec(s, sched).threads) == Total(s.threads)
    decreases |sched|
  {
    if sched != [] {
      StepShortens(s, sched[0]);
      StepKeepsInv(s, sched[0]);
      RunLength(Step(s, sched[0]), sched[1..]);
    }
  }

  // ---------- ordered scripts ----------

  /**
    The client acquires names in the order of `rank`, unlocks only what it holds and in
    the end holds nothing.  Holding one name at a time is the case of a constant rank.
   */
  ghost predicate Ordered(rank: Key -> nat, held: set<Key>, todo: seq<Op>)
    decreases |todo|
  {
    if todo == [] then held == {}
    else
      && Ordered(rank, After(held, todo[0]), todo[1..])
      && match todo[0]
         case Lock(k) => forall h | h in held :: rank(h) < rank(k)
         case Unlock(k) => k in held
  }

  ghost predicate ThreadOrdered(rank: Key -> nat, th: Thread) {
    if th.pc.Idle? then Ordered(rank, th.held, th.todo)
    else Ordered(rank, th.held, [th.pc.op] + th.todo)
  }

  ghost predicate OrderedClients(rank: Key -> nat, s: State) {
    forall t | 0 <= t < |s.threads| :: ThreadOrdered(rank, s.threads[t])
  }

  lemma StepKeepsOrdered(rank: Key -> nat, s: State, t: nat)
    requires Inv(s) && Enabled(s, t) && OrderedClients(rank, s)
    ensures OrderedClients(rank, Step(s, t))
  {
    StepShortens(s, t);
    StepKeepsEntriesOk(s, t);
    var th := s.threads[t];
    assert ThreadOrdered(rank, th);
    if th.pc.Idle? {
      assert [th.todo[0]] + th.todo[1..] == th.todo;
    } else {
      assert ([th.pc.op] + th.todo)[1..] == th.todo;
    }
    assert ThreadOrdered(rank, Step(s, t).threads[t]);
  }

  // ---------- no deadlock ----------

  predicate Finished(s: State) {
    forall t | 0 <= t < |s.threads| :: s.threads[t].pc == Idle && s.threads[t].todo == []
  }

  /** The thread has fetched the mutex of `k` and waits for its holder. */
  predicate WaitsFor(s: State, t: nat, k: Key) {
    t < |s.threads| && s.threads[t].pc.AtMutex? && s.threads[t].pc.op == Lock(k) && !Enabled(s, t)
  }

  /** No thread waits on a named mutex while it holds the global mutex. */
  lemma GlobalHolderRuns(s: State)
    requires Inv(s) && s.global.Some?
    ensures Enabled(s, s.global.value)
  {
    assert InCritical(s, s.global.value);
  }

  /** With the global mutex free, only a thread at a taken mutex is blocked. */
  lemma BlockedWaits(s: State, t: nat) returns (k: Key, h: nat)
    requires Inv(s) && s.global == None && t < |s.threads| && !Enabled(s, t)
    requires !(s.threads[t].pc.Idle? && s.threads[t].todo == [])
    ensures WaitsFor(s, t, k) && Holds(s, h, k)
  {
    var op := s.threads[t].pc.op;
    k := op.key;
    assert ThreadOk(s, t);
    assert op == Lock(k);
    assert HasEntry(s, k);
    h :| Holds(s, h, k);
  }

  function Wanted(th: Thread): Option<Key> {
    if th.pc.Idle? then None else Some(th.pc.op.key)
  }

  /** A bound on the rank of every name some thread is trying to lock. */
  ghost function RankBound(rank: Key -> nat, threads: seq<Thread>): (b: nat)
    ensures forall t | 0 <= t < |threads| && Wanted(threads[t]).Some? :: rank(Wanted(threads[t]).value) < b
  {
    if threads == [] then 0
    else
      var last := |threads| - 1;
      var b := RankBound(rank, threads[..last]);
      if Wanted(threads[last]).None? then b
      else if b <= rank(Wanted(threads[last]).value) then rank(Wanted(threads[last]).value) + 1 else b
  }

  /** Following holders from a waiting thread climbs the order, so it ends at a runnable one. */
  lemma {:induction false} ChaseHolder(rank: Key -> nat, s: State, t: nat, k: Key) returns (u: nat)
    requires Inv(s) && OrderedClients(rank, s) && s.global == None && WaitsFor(s, t, k)
    ensures Enabled(s, u)
    decreases RankBound(rank, s.threads) - rank(k)
  {
    var k0, h := BlockedWaits(s, t);
    assert ThreadOrdered(rank, s.threads[h]);
    assert rank(Wanted(s.threads[t]).value) < RankBound(rank, s.threads);
    if Enabled(s, h) {
      u := h;
    } else {
      var k', h' := BlockedWaits(s, h);
      assert ([Lock(k')] + s.threads[h].todo)[0] == Lock(k');
      assert rank(k) < rank(k');
      assert rank(Wanted(s.threads[h]).value) < RankBound(rank, s.threads);
      u := ChaseHolder(rank, s, h, k');
    }
  }

  /** Deadlock-freedom: an unfinished state always has a thread that can step. */
  lemma NeverStuck(rank: Key -> nat, s: State) returns (u: nat)
    requires Inv(s) && OrderedClients(rank, s) && !Finished(s)
    ensures Enabled(s, u)
  {
    if s.global.Some? {
      GlobalHolderRuns(s);
      u := s.global.value;
    } else {
      var t :| 0 <= t < |s.threads| && !(s.threads[t].pc == Idle && s.threads[t].todo == []);
      if Enabled(s, t) {
        u := t;
      } else {
        var k, h := BlockedWaits(s, t);
        u := ChaseHolder(rank, s, t, k);
      }
    }
  }

  lemma {:induction false} RunKeeps(rank: Key -> nat, s: State, sched: seq<nat>)
    requires Inv(s) && OrderedClients(rank, s) && Legal(s, sched)
    ensures Inv(Exec(s, sched)) && OrderedClients(rank, Exec(s, sched))
    decreases |sched|
  {
    if sched != [] {
      StepKeepsInv(s, sched[0]);
      StepKeepsOrdered(rank, s, sched[0]);
      RunKeeps(rank, Step(s, sched[0]), sched[1..]);
    }
  }

  lemma {:induction false} OrderedIsTame(rank: Key -> nat, held: set<Key>, todo: seq<Op>)
    requires Ordered(rank, held, todo)
    ensures Tame(held, todo)
    decreases |todo|
  {
    if todo != [] {
      OrderedIsTame(rank, After(held, todo[0]), todo[1..]);
    }
  }

  function CallsOf(th: Thread): nat { |th.todo| }

  function Calls(threads: seq<Thread>): nat { Sum(threads, CallsOf) }

  lemma {:induction false} FreshTotal(threads: seq<Thread>)
    requires forall t | 0 <= t < |threads| :: threads[t].pc == Idle
    ensures Total(threads) == 7 * Calls(threads)
    decreases |threads|
  {
    if threads != [] {
      FreshTotal(threads[..|threads| - 1]);
    }
  }

  lemma {:induction false} NothingLeft(threads: seq<Thread>)
    ensures Total(threads) == 0 <==>
      forall t | 0 <= t < |threads| :: threads[t].pc == Idle && threads[t].todo == []
    decreases |threads|
  {
    if threads != [] {
      var front := threads[..|threads| - 1];
      NothingLeft(front);
      assert forall t | 0 <= t < |front| :: front[t] == threads[t];
    }
  }

  predicate Unlocked(s: State, k: Key) {
    HasEntry(s, k) ==> Entry(s, k) < |s.mutexes| && !s.mutexes[Entry(s, k)]
  }

  ghost predicate AllUnlocked(s: State) {
    forall k :: Unlocked(s, k)
  }

  /**
    Completion: from a fresh service with ordered clients, no run is longer than seven
    steps a call; a run that has taken fewer can always go on; a run that cannot go on
    has finished every script and left every name of every store unlocked.
   */
  lemma EveryRunCompletes(rank: Key -> nat, s: State, sched: seq<nat>)
    requires Fresh(s) && s.enabled && Legal(s, sched)
    requires forall t | 0 <= t < |s.threads| :: Ordered(rank, {}, s.threads[t].todo)
    ensures |sched| <= 7 * Calls(s.threads)
    ensures Finished(Exec(s, sched)) <==> |sched| == 7 * Calls(s.threads)
    ensures Finished(Exec(s, sched)) <==> !exists u :: Enabled(Exec(s, sched), u)
    ensures Finished(Exec(s, sched)) ==> AllUnlocked(Exec(s, sched))
  {
    var s' := Exec(s, sched);
    forall t | 0 <= t < |s.threads| ensures Tame({}, s.threads[t].todo) && ThreadOrdered(rank, s.threads[t]) {
      OrderedIsTame(rank, {}, s.threads[t].todo);
    }
    LockRefinement.InitHolds(s);
    RunKeeps(rank, s, sched);
    RunLength(s, sched);
    FreshTotal(s.threads);
    NothingLeft(s'.threads);
    if !Finished(s') {
      var u := NeverStuck(rank, s');
    } else {
      forall t | 0 <= t < |s'.threads| ensures s'.threads[t].held == {} {
        assert ThreadOrdered(rank, s'.threads[t]);
      }
    }
  }

  // ---------- independence of names ----------

  /** The thread is about to lock `k`, or is anywhere inside that call. */
  predicate Locking(s: State, t: nat, k: Key) {
    && t < |s.threads|
    && var th := s.threads[t];
       if th.pc.Idle? then th.todo != [] && th.todo[0] == Lock(k) else th.pc.op == Lock(k)
  }

  /** The steps `t` needs for its own call, and the ones a holder of the global mutex needs to leave it. */
  function Distance(s: State, t: nat): nat
    requires t < |s.threads|
  {
    var th := s.threads[t];
    if th.pc.AtMutex? then
      1
    else
      (if th.pc.Idle? then 7 else PcWeight(th.pc)) +
      (if s.global.Some? && s.global.value != t && s.global.value < |s.threads|
       then PcWeight(s.threads[s.global.value].pc) - 1 else 0)
  }

  /** Whose step brings `t` nearer to a free name. */
  function Nearer(s: State, t: nat): nat
    requires t < |s.threads|
  {
    if s.threads[t].pc.AtMutex? || s.global.None? then t else s.global.value
  }

  lemma NearerRuns(s: State, t: nat, k: Key)
    requires Inv(s) && Locking(s, t, k) && forall u :: !Holds(s, u, k)
    ensures Enabled(s, Nearer(s, t))
  {
    assert ThreadOk(s, t);
    if s.global.Some? { GlobalHolderRuns(s); }
    assert s.threads[t].pc.AtMutex? ==> HasEntry(s, k) && !s.mutexes[Entry(s, k)];
  }

  lemma HolderOfGlobal(s: State)
    requires Inv(s)
    ensures s.global.Some? ==> s.global.value < |s.threads| && Critical(s.threads[s.global.value].pc)
  {
    assert s.global.Some? ==> InCritical(s, s.global.value);
  }

  /** What a step inside `getLock` changes: one thread's position, and who has the global mutex. */
  lemma StepInsideGetLock(s: State, u: nat)
    requires Inv(s) && Enabled(s, u) && !s.threads[u].pc.AtMutex?
    ensures var s', pc, pc' := Step(s, u), s.threads[u].pc, Step(s, u).threads[u].pc;
      && s'.threads == s.threads[u := s'.threads[u]]
      && s'.threads[u].held == s.threads[u].held
      && !pc'.Idle? && pc'.op == (if pc.Idle? then s.threads[u].todo[0] else pc.op)
      && PcWeight(pc') == (if pc.Idle? then 7 else PcWeight(pc)) - 1
      && s'.global == if pc.AtGlobal? then Some(u) else if pc.AtRelease? then None else s.global
  {
    StepShortens(s, u);
    StepKeepsEntriesOk(s, u);
  }

  lemma NearerApproaches(s: State, t: nat, k: Key)
    requires Inv(s) && Locking(s, t, k) && !s.threads[t].pc.AtMutex? && Enabled(s, Nearer(s, t))
    requires forall u :: !Holds(s, u, k)
    ensures var s' := Step(s, Nearer(s, t));
      && Inv(s') && Locking(s', t, k) && (forall u :: !Holds(s', u, k))
      && Distance(s', t) == Distance(s, t) - 1
      && (forall u | s'.global == Some(u) :: u == t || s.global == Some(u))
  {
    var next := Nearer(s, t);
    HolderOfGlobal(s);
    StepKeepsInv(s, next);
    StepInsideGetLock(s, next);
    NotHeldByOthers(s, Step(s, next), k);
    ApproachBy(s, Step(s, next), t, next);
  }

  lemma NotHeldByOthers(s: State, s': State, k: Key)
    requires |s.threads| == |s'.threads| && forall u | 0 <= u < |s.threads| :: s'.threads[u].held == s.threads[u].held
    requires forall u :: !Holds(s, u, k)
    ensures forall u :: !Holds(s', u, k)
  {
    assert forall u :: Holds(s', u, k) ==> Holds(s, u, k);
  }

  lemma ApproachBy(s: State, s': State, t: nat, next: nat)
    requires t < |s.threads| && next < |s.threads| == |s'.threads| && s'.threads == s.threads[next := s'.threads[next]]
    requires next == t || s.global == Some(next)
    requires !s.threads[t].pc.AtMutex? && (s.global.Some? && next == t ==> s.global == Some(t))
    requires next != t ==> Critical(s.threads[next].pc)
    requires var pc, pc' := s.threads[next].pc, s'.threads[next].pc;
      && !pc'.Idle? && PcWeight(pc') == (if pc.Idle? then 7 else PcWeight(pc)) - 1
      && s'.global == if pc.AtGlobal? then Some(next) else if pc.AtRelease? then None else s.global
    ensures Distance(s', t) == Distance(s, t) - 1
  {
  }

  /**
    A free name is always within reach: whatever other threads hold or wait for, `t` can
    lock `k` in at most eleven steps taken by itself and by the one thread inside
    `getLock`, if there is one.  No third thread has to move.
   */
  lemma {:induction false} FreeNameIsReachable(s: State, t: nat, k: Key) returns (sched: seq<nat>)
    requires Inv(s) && Locking(s, t, k) && forall u :: !Holds(s, u, k)
    ensures Legal(s, sched) && Holds(Exec(s, sched), t, k)
    ensures |sched| == Distance(s, t) <= 11
    ensures forall i | 0 <= i < |sched| :: sched[i] == t || s.global == Some(sched[i])
    decreases Distance(s, t)
  {
    NearerRuns(s, t, k);
    if s.threads[t].pc.AtMutex? {
      sched := [t];
      assert ThreadOk(s, t);
      assert sched[1..] == [] && Legal(Step(s, t), []);
    } else {
      var next := Nearer(s, t);
      NearerApproaches(s, t, k);
      var rest := FreeNameIsReachable(Step(s, next), t, k);
      sched := [next] + rest;
      assert sched[1..] == rest;
    }
    HolderOfGlobal(s);
  }
}
