/**
  When FakeNodeMetadata can deadlock.  A getter takes its method mutex and then the
  invocation lock; `Invocations` takes them the other way round.  That one cycle is the
  only way to get stuck, and a set of client scripts can reach it exactly when one
  thread's script has an `Invocations` and another thread's has a getter.
 */
module FakeDeadlock {
  import opened Wrappers
  import opened FakeSpec
  import opened FakeProtocol
  import opened Sums
  import opened FakeLinearizable

  predicate Finished(s: State) {
    forall t | 0 <= t < |s.threads| :: s.threads[t].pc == Idle && s.threads[t].todo == []
  }

  ghost predicate Stuck(s: State) {
    forall u :: !Enabled(s, u)
  }

  /** `i` holds the invocation lock and wants method `m`; `g` holds `m` and wants the invocation lock. */
  predicate CycleOf(s: State, i: nat, g: nat, m: Method) {
    PcOf(s, i) == SnapLock(m) &&
    ((PcOf(s, g).InvWant? && PcOf(s, g).m == m) || (PcOf(s, g).InvPend? && PcOf(s, g).m == m))
  }

  ghost predicate Cycle(s: State) {
    exists i, g, m :: CycleOf(s, i, g, m)
  }

  /** Once there, the cycle is there for ever. */
  lemma CycleStays(s: State, t: nat, i: nat, g: nat, m: Method)
    requires Inv(s) && Enabled(s, t) && CycleOf(s, i, g, m)
    ensures CycleOf(Step(s, t), i, g, m)
  {
    assert SlotLockOk(s, m, g) && InvLockOk(s, i);
    assert t != i;
    assert t == g ==> PcOf(s, g).InvWant?;
    if t != g {
      assert PcOf(Step(s, t), g) == PcOf(s, g);
    }
    assert PcOf(Step(s, t), i) == PcOf(s, i);
  }

  // ---------- without the cycle somebody can always step ----------

  /** Whoever reads a method's lock can step, or leads to someone who can. */
  lemma {:induction false} ReaderLeads(s: State, r: nat, m: Method) returns (u: nat)
    requires Inv(s) && !Cycle(s) && ReadsSlot(PcOf(s, r), m)
    ensures Enabled(s, u)
    decreases 4 - Index(m), 0
  {
    if Enabled(s, r) { return r; }
    u := SnapLeads(s, r, PcOf(s, r).m);
  }

  /** An `Invocations` waiting for a method's lock leads to someone who can step. */
  lemma {:induction false} SnapLeads(s: State, i: nat, m: Method) returns (u: nat)
    requires Inv(s) && !Cycle(s) && PcOf(s, i) == SnapLock(m)
    ensures Enabled(s, u)
    decreases 4 - Index(m), 1
  {
    if Enabled(s, i) { return i; }
    var w := s.slotLocks.At(m).writer.value.tid;
    assert SlotLockOk(s, m, w) && !CycleOf(s, i, w, m) && DataOk(s, PcOf(s, w));
    if Enabled(s, w) { return w; }
    var r :| r in s.slotLocks.At(m).readers;
    assert SlotLockOk(s, m, r);
    u := ReaderLeads(s, r, m);
  }

  lemma InvReaderLeads(s: State, r: nat) returns (u: nat)
    requires Inv(s) && !Cycle(s) && ReadsInv(PcOf(s, r))
    ensures Enabled(s, u)
  {
    if Enabled(s, r) { return r; }
    u := SnapLeads(s, r, PcOf(s, r).m);
  }

  /** Whoever keeps others out of the invocation lock leads to someone who can step. */
  lemma InvWriterLeads(s: State) returns (u: nat)
    requires Inv(s) && !Cycle(s) && s.invLock.writer.Some?
    ensures Enabled(s, u)
  {
    var w := s.invLock.writer.value.tid;
    assert InvLockOk(s, w);
    if Enabled(s, w) { return w; }
    var r :| r in s.invLock.readers;
    assert InvLockOk(s, r);
    u := InvReaderLeads(s, r);
  }

  lemma SlotWriterLeads(s: State, m: Method) returns (u: nat)
    requires Inv(s) && !Cycle(s) && s.slotLocks.At(m).writer.Some?
    ensures Enabled(s, u)
  {
    var w := s.slotLocks.At(m).writer.value.tid;
    assert SlotLockOk(s, m, w) && InvLockOk(s, w) && DataOk(s, PcOf(s, w));
    if Enabled(s, w) { return w; }
    if PcOf(s, w).PendWrite? {
      var r :| r in s.slotLocks.At(m).readers;
      assert SlotLockOk(s, m, r);
      u := ReaderLeads(s, r, m);
    } else {
      u := InvWriterLeads(s);
    }
  }

  lemma SomeoneRuns(s: State) returns (u: nat)
    requires Inv(s) && !Cycle(s) && !Finished(s)
    ensures Enabled(s, u)
  {
    var t: nat :| t < |s.threads| && !(s.threads[t].pc == Idle && s.threads[t].todo == []);
    assert DataOk(s, PcOf(s, t)) && InvLockOk(s, t);
    if Enabled(s, t) { return t; }
    match s.threads[t].pc
    case WantWrite(op) => u := SlotWriterLeads(s, op.m);
    case PendWrite(op) =>
      assert SlotLockOk(s, op.m, t);
      u := SlotWriterLeads(s, op.m);
    case WantRead(m) => u := SlotWriterLeads(s, m);
    case InvWant(_, _) => u := InvWriterLeads(s);
    case InvPend(_, _) => u := InvWriterLeads(s);
    case SnapInv => u := InvWriterLeads(s);
    case SnapLock(m) => u := SnapLeads(s, t, m);
    case _ => assert false;
  }

  // ---------- every run is finite ----------

  function PcWeight(pc: Pc): nat {
    match pc
    case Idle => 0
    case Answering(_, _) => 1
    case Release(_, _, _) => 2
    case SetRest(_, _) => 3
    case SetStub(_, _) => 4
    case InvRelease(_, _) => 3
    case InvRecord(_, _) => 4
    case InvPend(_, _) => 5
    case InvWant(_, _) => 6
    case GetFallback(_, _, _, _) => 7
    case GetStub(_, _, _) => 8
    case GetAppend(_, _, _) => 9
    case GetLookup(_, _) => 10
    case PendWrite(_) => 11
    case WantWrite(_) => 12
    case CountRelease(_, _) => 2
    case CountRead(_) => 3
    case WantRead(_) => 4
    case SnapDropInv(_) => 2
    case SnapDrop(m, _) => 3 + Index(m)
    case SnapCopy => 7
    case SnapLock(m) => 11 - Index(m)
    case SnapInv => 12
  }

  function Remaining(th: Thread): nat {
    13 * |th.todo| + PcWeight(th.pc)
  }

  function Total(threads: seq<Thread>): nat { Sum(threads, Remaining) }

  lemma GetterWork(s: State, t: nat)
    requires Enabled(s, t) && Getting(PcOf(s, t))
    ensures Step(s, t).threads == s.threads[t := Step(s, t).threads[t]]
    ensures Remaining(Step(s, t).threads[t]) < Remaining(s.threads[t])
  {
  }

  lemma OwnWork(s: State, t: nat)
    requires Enabled(s, t)
    ensures Step(s, t).threads == s.threads[t := Step(s, t).threads[t]]
    ensures Remaining(Step(s, t).threads[t]) < Remaining(s.threads[t])
  {
    if Getting(PcOf(s, t)) { GetterWork(s, t); }
  }

  lemma StepShortens(s: State, t: nat)
    requires Enabled(s, t)
    ensures Step(s, t).threads == s.threads[t := Step(s, t).threads[t]]
    ensures Total(Step(s, t).threads) < Total(s.threads)
  {
    OwnWork(s, t);
    SumUpdate(s.threads, Remaining, t, Step(s, t).threads[t]);
  }

  lemma {:induction false} RunsAreFinite(s: State, sched: seq<nat>)
    requires Legal(s, sched)
    ensures |sched| + Total(Exec(s, sched).threads) <= Total(s.threads)
    decreases |sched|
  {
    if sched != [] {
      StepShortens(s, sched[0]);
      RunsAreFinite(Step(s, sched[0]), sched[1..]);
    }
  }

  lemma {:induction false} CycleStaysInRuns(s: State, sched: seq<nat>)
    requires Inv(s) && Cycle(s) && Legal(s, sched)
    ensures Cycle(Exec(s, sched)) && !Finished(Exec(s, sched))
    decreases |sched|
  {
    var i, g, m :| CycleOf(s, i, g, m);
    if sched == [] {
      assert PcOf(s, i) == SnapLock(m);
    } else {
      StepKeepsInv(s, sched[0]);
      CycleStays(s, sched[0], i, g, m);
      CycleStaysInRuns(Step(s, sched[0]), sched[1..]);
    }
  }

  /**
    A run that cannot go on has finished every script unless it shows the cycle, and a
    run that shows the cycle never finishes, however it goes on.
   */
  lemma StuckExactlyInACycle(s: State, sched: seq<nat>)
    requires Init(s) && Legal(s, sched)
    ensures |sched| <= Total(s.threads)
    ensures Stuck(Exec(s, sched)) ==> (Finished(Exec(s, sched)) <==> !Cycle(Exec(s, sched)))
    ensures Cycle(Exec(s, sched)) ==>
      forall more | Legal(Exec(s, sched), more) :: !Finished(Exec(Exec(s, sched), more))
  {
    var s' := Exec(s, sched);
    InitHolds(s);
    RunKeepsInv(s, sched);
    RunsAreFinite(s, sched);
    if Cycle(s') {
      forall more | Legal(s', more) ensures !Finished(Exec(s', more)) {
        CycleStaysInRuns(s', more);
      }
      assert Legal(s', []) && Exec(s', []) == s';
    } else if !Finished(s') {
      var u := SomeoneRuns(s');
    }
  }

  /** Lock ranking: no getter overlaps an `Invocations`, so an unfinished state can go on. */
  lemma NoOverlapNoDeadlock(s: State, sched: seq<nat>) returns (u: nat)
    requires Init(s) && Legal(s, sched) && !Finished(Exec(s, sched))
    requires forall i, g | PcOf(Exec(s, sched), i) != Idle && PcOf(Exec(s, sched), g) != Idle ::
      !(OpOf(PcOf(Exec(s, sched), i)).Invocations? && OpOf(PcOf(Exec(s, sched), g)).Get?)
    ensures Enabled(Exec(s, sched), u)
  {
    InitHolds(s);
    RunKeepsInv(s, sched);
    u := SomeoneRuns(Exec(s, sched));
  }
}
