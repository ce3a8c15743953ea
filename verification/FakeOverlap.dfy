/**
  Which client scripts can deadlock on FakeNodeMetadata: exactly those in which one
  thread calls `Invocations` and a different thread calls a getter.
 */
module FakeOverlap {
  import opened Wrappers
  import opened FakeSpec
  import opened FakeProtocol
  import opened FakeLinearizable
  import opened FakeDeadlock

  ghost predicate Reaches(s: State, s': State) {
    exists sched :: Legal(s, sched) && Exec(s, sched) == s'
  }

  /** Some run stops with a script unfinished. */
  ghost predicate CanDeadlock(s: State) {
    exists s' :: Reaches(s, s') && Stuck(s') && !Finished(s')
  }

  ghost predicate Overlappable(s: State) {
    exists t, u | 0 <= t < |s.threads| && 0 <= u < |s.threads| && t != u ::
      Invocations in s.threads[t].todo && exists m :: Get(m) in s.threads[u].todo
  }

  // ---------- composing runs ----------

  lemma {:induction false} Compose(s: State, a: seq<nat>, b: seq<nat>)
    requires Legal(s, a) && Legal(Exec(s, a), b)
    ensures Legal(s, a + b) && Exec(s, a + b) == Exec(Exec(s, a), b)
    decreases |a|
  {
    if a == [] {
      assert a + b == b;
    } else {
      assert (a + b)[1..] == a[1..] + b;
      Compose(Step(s, a[0]), a[1..], b);
    }
  }

  lemma ReachesSelf(s: State)
    ensures Reaches(s, s)
  {
    assert Legal(s, []) && Exec(s, []) == s;
  }

  lemma ReachesThen(s: State, s': State, s'': State)
    requires Reaches(s, s') && Reaches(s', s'')
    ensures Reaches(s, s'')
  {
    var a :| Legal(s, a) && Exec(s, a) == s';
    var b :| Legal(s', b) && Exec(s', b) == s'';
    Compose(s, a, b);
  }

  lemma ReachesStep(s: State, t: nat, s': State)
    requires Enabled(s, t) && Reaches(Step(s, t), s')
    ensures Reaches(s, s')
  {
    var b :| Legal(Step(s, t), b) && Exec(Step(s, t), b) == s';
    assert ([t] + b)[1..] == b;
    assert Legal(s, [t] + b) && Exec(s, [t] + b) == s';
  }

  // ---------- one thread on its own ----------

  /** Nobody but `t`, and a getter `g` parked before the invocation lock, is inside a call. */
  predicate Parked(s: State, t: nat, g: nat, m: Method) {
    && t < |s.threads| && t != g
    && (forall u | 0 <= u < |s.threads| && u != t && u != g :: s.threads[u].pc == Idle)
    && (PcOf(s, g) == Idle || (PcOf(s, g).InvWant? && PcOf(s, g).m == m))
  }

  /** A method's lock as a thread finds it when nobody else has a claim on it. */
  lemma SlotLockView(s: State, t: nat, n: Method)
    requires Inv(s)
    requires forall u: nat | u != t ::
      !WritesSlot(PcOf(s, u), n) && !PendsSlot(PcOf(s, u), n) && !ReadsSlot(PcOf(s, u), n)
    ensures !ReadsSlot(PcOf(s, t), n) ==> s.slotLocks.At(n).readers == {}
    ensures !WritesSlot(PcOf(s, t), n) && !PendsSlot(PcOf(s, t), n) ==> s.slotLocks.At(n).writer.None?
  {
    var l := s.slotLocks.At(n);
    if l.writer.Some? {
      var w := l.writer.value;
      assert SlotLockOk(s, n, w.tid) && (w == Writer(w.tid, true) || w == Writer(w.tid, false));
    }
    forall u: nat | u in l.readers ensures u == t {
      assert SlotLockOk(s, n, u);
    }
    assert SlotLockOk(s, n, t);
  }

  lemma InvLockView(s: State, t: nat)
    requires Inv(s)
    requires forall u: nat | u != t :: !WritesInv(PcOf(s, u)) && !PcOf(s, u).InvPend? && !ReadsInv(PcOf(s, u))
    ensures !ReadsInv(PcOf(s, t)) ==> s.invLock.readers == {}
    ensures !WritesInv(PcOf(s, t)) && !PcOf(s, t).InvPend? ==> s.invLock.writer.None?
  {
    var l := s.invLock;
    if l.writer.Some? {
      var w := l.writer.value;
      assert InvLockOk(s, w.tid) && (w == Writer(w.tid, true) || w == Writer(w.tid, false));
    }
    forall u: nat | u in l.readers ensures u == t {
      assert InvLockOk(s, u);
    }
    assert InvLockOk(s, t);
  }

  /** No other thread stands in the way at a method's mutex, but for a parked getter at its own. */
  lemma AloneAtSlot(s: State, t: nat, g: nat, m: Method, n: Method)
    requires Inv(s) && Parked(s, t, g, m) && (n != m || PcOf(s, g) == Idle)
    ensures !ReadsSlot(PcOf(s, t), n) ==> s.slotLocks.At(n).readers == {}
    ensures !WritesSlot(PcOf(s, t), n) && !PendsSlot(PcOf(s, t), n) ==> s.slotLocks.At(n).writer.None?
  {
    assert forall u: nat | u != t :: PcOf(s, u) == Idle || (PcOf(s, u).InvWant? && PcOf(s, u).m == m);
    assert forall u: nat | u != t && n == m :: PcOf(s, u) == Idle;
    SlotLockView(s, t, n);
  }

  /** Alone, or short of the parked getter's own mutex, a thread is never blocked. */
  lemma AloneRuns(s: State, t: nat, g: nat, m: Method)
    requires Inv(s) && Parked(s, t, g, m)
    requires s.threads[t].pc == Idle ==> s.threads[t].todo != []
    requires PcOf(s, g) != Idle ==>
      s.threads[t].pc.Idle? || s.threads[t].pc.SnapInv? || (s.threads[t].pc.SnapLock? && s.threads[t].pc.m != m)
    ensures Enabled(s, t)
  {
    var pc := s.threads[t].pc;
    assert DataOk(s, PcOf(s, t));
    assert forall u: nat | u != t :: PcOf(s, u) == Idle || (PcOf(s, u).InvWant? && PcOf(s, u).m == m);
    InvLockView(s, t);
    forall n | n != m || PcOf(s, g) == Idle
      ensures !ReadsSlot(pc, n) ==> s.slotLocks.At(n).readers == {}
      ensures !WritesSlot(pc, n) && !PendsSlot(pc, n) ==> s.slotLocks.At(n).writer.None?
    {
      AloneAtSlot(s, t, g, m, n);
    }
  }

  /** Alone, a thread can finish the call it is in. */
  lemma {:induction false} FinishCall(s: State, t: nat, g: nat) returns (s': State)
    requires Inv(s) && Parked(s, t, g, Zone) && PcOf(s, g) == Idle
    ensures Reaches(s, s') && Inv(s') && |s'.threads| == |s.threads|
    ensures s'.threads[t].pc == Idle && s'.threads[t].todo == s.threads[t].todo
    ensures forall u | 0 <= u < |s.threads| && u != t :: s'.threads[u] == s.threads[u]
    decreases Remaining(s.threads[t])
  {
    if s.threads[t].pc == Idle {
      s' := s;
      ReachesSelf(s);
    } else {
      AloneRuns(s, t, g, Zone);
      OwnWork(s, t);
      StepKeepsInv(s, t);
      TodoStays(s, t);
      s' := FinishCall(Step(s, t), t, g);
      ReachesStep(s, t, s');
    }
  }

  lemma TodoStays(s: State, t: nat)
    requires Enabled(s, t) && s.threads[t].pc != Idle
    ensures t < |Step(s, t).threads| && Step(s, t).threads[t].todo == s.threads[t].todo
  {
  }

  predicate AllIdle(s: State) {
    forall u | 0 <= u < |s.threads| :: s.threads[u].pc == Idle
  }

  /** With all threads idle, one of them can work its script down to a call still in it. */
  lemma {:induction false} WorkDownTo(s: State, t: nat, g: nat, op: Op) returns (s': State)
    requires Inv(s) && AllIdle(s) && t < |s.threads| && g != t && op in s.threads[t].todo
    ensures Reaches(s, s') && Inv(s') && AllIdle(s') && |s'.threads| == |s.threads|
    ensures s'.threads[t].todo != [] && s'.threads[t].todo[0] == op
    ensures forall u | 0 <= u < |s.threads| && u != t :: s'.threads[u] == s.threads[u]
    decreases |s.threads[t].todo|
  {
    if s.threads[t].todo[0] == op {
      s' := s;
      ReachesSelf(s);
    } else {
      StepKeepsInv(s, t);
      var s1 := Step(s, t);
      var s2 := FinishCall(s1, t, g);
      ReachesStep(s, t, s2);
      var s3 := WorkDownTo(s2, t, g, op);
      ReachesThen(s, s2, s3);
      s' := s3;
    }
  }

  /** A getter on its own gets as far as wanting the invocation lock. */
  lemma {:induction false} ParkGetter(s: State, t: nat, g: nat, m: Method) returns (s': State)
    requires Inv(s) && t != g && g < |s.threads| && Parked(s, g, t, m) && PcOf(s, t) == Idle
    requires
      var th := s.threads[g];
      if th.pc == Idle then th.todo != [] && th.todo[0] == Get(m)
      else OpOf(th.pc) == Get(m) && PcWeight(th.pc) >= 6
    ensures Reaches(s, s') && Inv(s') && |s'.threads| == |s.threads|
    ensures PcOf(s', g).InvWant? && PcOf(s', g).m == m
    ensures forall u | 0 <= u < |s.threads| && u != g :: s'.threads[u] == s.threads[u]
    decreases Remaining(s.threads[g])
  {
    if s.threads[g].pc.InvWant? {
      s' := s;
      ReachesSelf(s);
    } else {
      AloneRuns(s, g, t, m);
      OwnWork(s, g);
      StepKeepsInv(s, g);
      s' := ParkGetter(Step(s, g), t, g, m);
      ReachesStep(s, g, s');
    }
  }

  /** With the getter parked, `Invocations` walks into the cycle. */
  lemma {:induction false} WalkIn(s: State, t: nat, g: nat, m: Method) returns (s': State)
    requires Inv(s) && Parked(s, t, g, m) && PcOf(s, g).InvWant?
    requires
      var th := s.threads[t];
      (th.pc == Idle && th.todo != [] && th.todo[0] == Invocations) || th.pc == SnapInv ||
      (th.pc.SnapLock? && Index(th.pc.m) <= Index(m))
    ensures Reaches(s, s') && Inv(s') && Cycle(s')
    decreases Remaining(s.threads[t])
  {
    if s.threads[t].pc == SnapLock(m) {
      s' := s;
      ReachesSelf(s);
      assert CycleOf(s, t, g, m);
    } else {
      AloneRuns(s, t, g, m);
      OwnWork(s, t);
      StepKeepsInv(s, t);
      s' := WalkIn(Step(s, t), t, g, m);
      ReachesStep(s, t, s');
    }
  }

  /** From the cycle, whatever else is left runs out. */
  lemma {:induction false} RunOut(s: State) returns (s': State)
    requires Inv(s) && Cycle(s)
    ensures Reaches(s, s') && Stuck(s') && !Finished(s')
    decreases Total(s.threads)
  {
    var i, g, m :| CycleOf(s, i, g, m);
    if u :| Enabled(s, u) {
      StepShortens(s, u);
      StepKeepsInv(s, u);
      CycleStays(s, u, i, g, m);
      s' := RunOut(Step(s, u));
      ReachesStep(s, u, s');
    } else {
      s' := s;
      ReachesSelf(s);
      assert PcOf(s, i) == SnapLock(m);
    }
  }

  // ---------- the exact condition ----------

  lemma OverlapDeadlocks(s: State)
    requires Init(s) && Overlappable(s)
    ensures CanDeadlock(s)
  {
    var t, g :| 0 <= t < |s.threads| && 0 <= g < |s.threads| && t != g &&
      Invocations in s.threads[t].todo && exists m :: Get(m) in s.threads[g].todo;
    var m :| Get(m) in s.threads[g].todo;
    InitHolds(s);
    var s1 := WorkDownTo(s, t, g, Invocations);
    var s2 := WorkDownTo(s1, g, t, Get(m));
    var s3 := ParkGetter(s2, t, g, m);
    var s4 := WalkIn(s3, t, g, m);
    var s5 := RunOut(s4);
    ReachesThen(s, s1, s2);
    ReachesThen(s, s2, s3);
    ReachesThen(s, s3, s4);
    ReachesThen(s, s4, s5);
  }

  lemma InvokedFromScript(th: Thread, mine: seq<Entry>, script: seq<Op>)
    requires Agrees(th, mine, script) && PhaseOf(th.pc).Invoked?
    ensures PhaseOf(th.pc).op in script
  {
    assert script[|mine|] == PhaseOf(th.pc).op;
  }

  /** The two threads of a cycle have the two calls in their scripts. */
  lemma CycleFromScripts(s: State, log: seq<Entry>, scripts: seq<seq<Op>>, i: nat, g: nat, m: Method)
    requires Explains(s, log, scripts) && CycleOf(s, i, g, m)
    ensures i < |scripts| && g < |scripts| && i != g
    ensures Invocations in scripts[i] && Get(m) in scripts[g]
  {
    InvokedFromScript(s.threads[i], Mine(log, i), scripts[i]);
    InvokedFromScript(s.threads[g], Mine(log, g), scripts[g]);
  }

  lemma StuckRunOverlaps(s: State, sched: seq<nat>)
    requires Init(s) && Legal(s, sched) && Stuck(Exec(s, sched)) && !Finished(Exec(s, sched))
    ensures Overlappable(s)
  {
    StuckExactlyInACycle(s, sched);
    var i: nat, g: nat, m :| CycleOf(Exec(s, sched), i, g, m);
    Linearizable(s, sched);
    CycleFromScripts(Exec(s, sched), Log(s, sched), Scripts(s), i, g, m);
    assert Get(m) in s.threads[g].todo;
  }

  lemma DeadlockOverlaps(s: State)
    requires Init(s) && CanDeadlock(s)
    ensures Overlappable(s)
  {
    var s' :| Reaches(s, s') && Stuck(s') && !Finished(s');
    var sched :| Legal(s, sched) && Exec(s, sched) == s';
    StuckRunOverlaps(s, sched);
  }

  /** Scripts can deadlock exactly when `Invocations` and a getter can meet. */
  lemma DeadlockExactlyWhenOverlap(s: State)
    requires Init(s)
    ensures CanDeadlock(s) <==> Overlappable(s)
  {
    if CanDeadlock(s) { DeadlockOverlaps(s); }
    if Overlappable(s) { OverlapDeadlocks(s); }
  }
}
