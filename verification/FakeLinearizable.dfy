/**
  FakeNodeMetadata is linearizable: every interleaving of its calls has the answers of
  some one-at-a-time history in which each call takes effect between its start and its
  return.
 */
module FakeLinearizable {
  import opened Wrappers
  import opened FakeSpec
  import opened FakeProtocol

  // ---------- the atomic object ----------

  datatype Phase = Quiet | Invoked(op: Op) | Responding(op: Op, answer: Answer)

  datatype Atomic = Atomic(slots: Four<Slot>, phases: seq<Phase>, results: seq<seq<Answer>>)

  /** A call starts, takes effect in one step, or returns; anything else is invisible. */
  ghost predicate AtomicStep(a: Atomic, a': Atomic, t: nat) {
    && t < |a.phases| == |a.results|
    && match a.phases[t]
       case Quiet => exists op :: a' == a.(phases := a.phases[t := Invoked(op)])
       case Invoked(op) =>
         var (slots, answer) := Apply(a.slots, op);
         a' == a || a' == Atomic(slots, a.phases[t := Responding(op, answer)], a.results)
       case Responding(_, answer) =>
         a' == a || a' == Atomic(a.slots, a.phases[t := Quiet], a.results[t := a.results[t] + [answer]])
  }

  // ---------- the abstraction ----------

  function OpOf(pc: Pc): Op
    requires !pc.Idle?
  {
    match pc
    case WantWrite(op) => op
    case PendWrite(op) => op
    case SetStub(op, _) => op
    case SetRest(op, _) => op
    case Release(op, _, _) => op
    case Answering(op, _) => op
    case WantRead(m) => CallCount(m)
    case CountRead(m) => CallCount(m)
    case CountRelease(m, _) => CallCount(m)
    case GetLookup(m, _) => Get(m)
    case GetAppend(m, _, _) => Get(m)
    case GetStub(m, _, _) => Get(m)
    case GetFallback(m, _, _, _) => Get(m)
    case InvWant(m, _) => Get(m)
    case InvPend(m, _) => Get(m)
    case InvRecord(m, _) => Get(m)
    case InvRelease(m, _) => Get(m)
    case _ => Invocations
  }

  function PhaseOf(pc: Pc): Phase {
    match pc
    case Idle => Quiet
    case CountRelease(m, n) => Responding(CallCount(m), Count(n))
    case SnapDrop(_, counts) => Responding(Invocations, Snapshot(counts))
    case SnapDropInv(counts) => Responding(Invocations, Snapshot(counts))
    case Answering(op, answer) => Responding(op, answer)
    case _ => Invoked(OpOf(pc))
  }

  function PreOf(pc: Pc, slot: Slot): Slot {
    match pc
    case GetLookup(_, pre) => pre
    case GetAppend(_, pre, _) => pre
    case GetStub(_, pre, _) => pre
    case GetFallback(_, pre, _, _) => pre
    case InvWant(_, got) => got.pre
    case InvPend(_, got) => got.pre
    case InvRecord(_, got) => got.pre
    case InvRelease(_, got) => got.pre
    case SetStub(_, pre) => pre
    case SetRest(_, pre) => pre
    case Release(_, pre, _) => pre
    case _ => slot
  }

  /** While a writer is inside, the atomic object still shows the slot as the writer found it. */
  function AbsSlot(s: State, m: Method): Slot {
    var w := s.slotLocks.At(m).writer;
    if w.Some? && w.value.entered then PreOf(PcOf(s, w.value.tid), s.slots.At(m)) else s.slots.At(m)
  }

  function AbsSlots(s: State): (slots: Four<Slot>)
    ensures forall m :: slots.At(m) == AbsSlot(s, m)
  {
    Four(AbsSlot(s, AccountID), AbsSlot(s, Region), AbsSlot(s, WorkerID), AbsSlot(s, Zone))
  }

  function Abs(s: State): Atomic {
    Atomic(AbsSlots(s),
           seq(|s.threads|, t requires 0 <= t < |s.threads| => PhaseOf(s.threads[t].pc)),
           seq(|s.threads|, t requires 0 <= t < |s.threads| => s.threads[t].results))
  }

  // ---------- the points at which calls take effect ----------

  datatype Entry = Entry(tid: nat, op: Op, answer: Answer)

  /** The call, if any, that takes effect when the thread makes its next step. */
  function Effect(s: State, t: nat): Option<Entry> {
    match PcOf(s, t)
    case Release(op, _, answer) => Some(Entry(t, op, answer))
    case CountRead(m) => Some(Entry(t, CallCount(m), Count(s.slots.At(m).calls)))
    case SnapCopy => Some(Entry(t, Invocations, Snapshot(s.counts)))
    case _ => None
  }

  /** A reader inside keeps every writer out, so what it reads is the atomic value. */
  lemma ReadersSeeAtomic(s: State, t: nat, m: Method)
    requires Inv(s) && ReadsSlot(PcOf(s, t), m)
    ensures AbsSlot(s, m) == s.slots.At(m) && s.counts.At(m) == s.slots.At(m).calls
  {
    assert SlotLockOk(s, m, t) && CountsOk(s, m);
    var w := s.slotLocks.At(m).writer;
    assert w.Some? ==> SlotLockOk(s, m, w.value.tid);
  }

  /**
    A consistent cut: when `Invocations` copies the map, each method's recorded list has
    exactly as many entries as the method has calls.
   */
  lemma SnapshotIsConsistent(s: State, t: nat)
    requires Inv(s) && PcOf(s, t).SnapCopy?
    ensures s.counts == CallsOf(s.slots) == CallsOf(AbsSlots(s))
  {
    forall m ensures AbsSlot(s, m) == s.slots.At(m) && s.counts.At(m) == s.slots.At(m).calls {
      ReadersSeeAtomic(s, t, m);
    }
    assert forall m :: CallsOf(s.slots).At(m) == s.slots.At(m).calls;
    SameFour(s.counts, CallsOf(s.slots));
    SameFour(AbsSlots(s), s.slots);
  }

  lemma AbsSlotAfter(s: State, t: nat, m: Method)
    requires Inv(s) && Enabled(s, t)
    ensures var pc := PcOf(s, t);
      AbsSlot(Step(s, t), m) ==
        if pc.Release? && pc.op.m == m then ApplySlot(AbsSlot(s, m), pc.op).0 else AbsSlot(s, m)
  {
    assert SlotLockOk(s, m, t) && DataOk(s, PcOf(s, t));
    LockEffect(s, t, m);
    if WritesSlot(PcOf(s, t), m) {
      OwnAbsSlot(s, t, m);
    } else {
      SlotsOfOthers(s, t, m);
      var w := s.slotLocks.At(m).writer;
      if w.Some? { OthersStay(s, t, w.value.tid); }
      if PcOf(s, t).PendWrite? && PcOf(s, t).op.m == m { EnteringKeeps(s, t, m); }
    }
  }

  /** A writer that enters remembers the slot as it is. */
  lemma EnteringKeeps(s: State, t: nat, m: Method)
    requires Enabled(s, t) && SlotLockOk(s, m, t) && PcOf(s, t).PendWrite? && PcOf(s, t).op.m == m
    requires Step(s, t).slotLocks.At(m) == LockAfter(s.slotLocks.At(m), PcOf(s, t), m, t)
    ensures AbsSlot(Step(s, t), m) == AbsSlot(s, m)
  {
  }

  lemma OwnAbsSlot(s: State, t: nat, m: Method)
    requires Enabled(s, t) && SlotLockOk(s, m, t) && DataOk(s, PcOf(s, t)) && WritesSlot(PcOf(s, t), m)
    requires Step(s, t).slotLocks.At(m) == LockAfter(s.slotLocks.At(m), PcOf(s, t), m, t)
    ensures var pc := PcOf(s, t);
      AbsSlot(Step(s, t), m) ==
        if pc.Release? then ApplySlot(AbsSlot(s, m), pc.op).0 else AbsSlot(s, m)
  {
  }

  /** A call takes effect with the answer, and the new slots, of the one-at-a-time object. */
  lemma EffectIsApply(s: State, t: nat)
    requires Inv(s) && Enabled(s, t)
    ensures match Effect(s, t)
      case Some(e) => Apply(AbsSlots(s), e.op) == (AbsSlots(Step(s, t)), e.answer)
      case None => AbsSlots(Step(s, t)) == AbsSlots(s)
  {
    var pc := PcOf(s, t);
    assert DataOk(s, pc);
    forall m ensures AbsSlots(Step(s, t)).At(m) ==
      if pc.Release? && pc.op.m == m then ApplySlot(AbsSlots(s).At(m), pc.op).0 else AbsSlots(s).At(m)
    {
      AbsSlotAfter(s, t, m);
    }
    match Effect(s, t)
    case Some(e) =>
      if pc.Release? {
        assert SlotLockOk(s, pc.op.m, t);
        assert AbsSlot(s, pc.op.m) == pc.pre;
      } else if pc.CountRead? {
        ReadersSeeAtomic(s, t, pc.m);
      } else {
        SnapshotIsConsistent(s, t);
      }
      SameFour(AbsSlots(Step(s, t)), Apply(AbsSlots(s), e.op).0);
    case None =>
      SameFour(AbsSlots(Step(s, t)), AbsSlots(s));
  }

  /** A getter inside its critical part is still waiting for its call to take effect. */
  lemma GetterPhase(s: State, t: nat)
    requires Enabled(s, t) && Getting(PcOf(s, t))
    ensures var th, th' := s.threads[t], Step(s, t).threads[t];
      && Step(s, t).threads == s.threads[t := th'] && Effect(s, t).None?
      && PhaseOf(th'.pc) == PhaseOf(th.pc) && PhaseOf(th.pc).Invoked?
      && th'.results == th.results && th'.todo == th.todo
  {
  }

  /** A call takes effect while it is waiting to, and has its answer from then on. */
  lemma EffectPhase(s: State, t: nat)
    requires Enabled(s, t) && Effect(s, t).Some?
    ensures var th, th', e := s.threads[t], Step(s, t).threads[t], Effect(s, t).value;
      && Step(s, t).threads == s.threads[t := th'] && e.tid == t
      && PhaseOf(th.pc) == Invoked(e.op) && PhaseOf(th'.pc) == Responding(e.op, e.answer)
      && th'.results == th.results && th'.todo == th.todo
  {
  }

  /** Where no call starts, takes effect or returns, the phase stays. */
  lemma SamePhase(s: State, t: nat)
    requires Enabled(s, t) && Effect(s, t).None? && !PcOf(s, t).Idle? && !PcOf(s, t).Answering?
    ensures var th, th' := s.threads[t], Step(s, t).threads[t];
      && Step(s, t).threads == s.threads[t := th']
      && PhaseOf(th'.pc) == PhaseOf(th.pc) && !PhaseOf(th.pc).Quiet?
      && th'.results == th.results && th'.todo == th.todo
  {
    if Getting(PcOf(s, t)) { GetterPhase(s, t); }
  }

  /** How the stepping thread's phase and results move. */
  lemma PhaseAfter(s: State, t: nat)
    requires Enabled(s, t)
    ensures var th, th', phase := s.threads[t], Step(s, t).threads[t], PhaseOf(PcOf(s, t));
      && Step(s, t).threads == s.threads[t := th']
      && match Effect(s, t)
         case Some(e) =>
           e.tid == t && phase == Invoked(e.op) && th'.results == th.results && th'.todo == th.todo &&
           PhaseOf(th'.pc) == Responding(e.op, e.answer)
         case None =>
           if th.pc.Idle? then
             th.todo != [] && PhaseOf(th'.pc) == Invoked(th.todo[0]) &&
             th'.results == th.results && th'.todo == th.todo[1..]
           else if th.pc.Answering? then
             PhaseOf(th'.pc) == Quiet && th'.results == th.results + [th.pc.answer] && th'.todo == th.todo
           else
             PhaseOf(th'.pc) == phase && !phase.Quiet? && th'.results == th.results && th'.todo == th.todo
  {
    if Effect(s, t).Some? {
      EffectPhase(s, t);
    } else if !PcOf(s, t).Idle? && !PcOf(s, t).Answering? {
      SamePhase(s, t);
    }
  }

  /** Forward simulation: each protocol step is a step of the atomic object by the same thread. */
  lemma StepSimulates(s: State, t: nat)
    requires Inv(s) && Enabled(s, t)
    ensures AtomicStep(Abs(s), Abs(Step(s, t)), t)
  {
    EffectIsApply(s, t);
    PhaseAfter(s, t);
    var a, a', th' := Abs(s), Abs(Step(s, t)), Step(s, t).threads[t];
    assert a'.phases == a.phases[t := PhaseOf(th'.pc)];
    assert a'.results == a.results[t := th'.results];
    assert a.results[t := a.results[t]] == a.results && a.phases[t := a.phases[t]] == a.phases;
    if s.threads[t].pc.Idle? {
      assert a' == a.(phases := a.phases[t := Invoked(s.threads[t].todo[0])]);
    }
  }

  // ---------- the history of a run ----------

  function Logged(e: Option<Entry>): seq<Entry> {
    if e.Some? then [e.value] else []
  }

  /** The calls of a run in the order in which they take effect. */
  function Log(s: State, sched: seq<nat>): seq<Entry>
    requires Legal(s, sched)
    decreases |sched|
  {
    if sched == [] then [] else Logged(Effect(s, sched[0])) + Log(Step(s, sched[0]), sched[1..])
  }

  function Ops(log: seq<Entry>): (ops: seq<Op>)
    ensures |ops| == |log| && forall i | 0 <= i < |log| :: ops[i] == log[i].op
  {
    seq(|log|, i requires 0 <= i < |log| => log[i].op)
  }

  /** One thread's part of the history. */
  function Mine(log: seq<Entry>, t: nat): seq<Entry> {
    if log == [] then []
    else
      var last := log[|log| - 1];
      Mine(log[..|log| - 1], t) + if last.tid == t then [last] else []
  }

  function Answers(log: seq<Entry>): (answers: seq<Answer>)
    ensures |answers| == |log| && forall i | 0 <= i < |log| :: answers[i] == log[i].answer
  {
    seq(|log|, i requires 0 <= i < |log| => log[i].answer)
  }

  /** Each answer of the history is the one the sequential object gives at that place. */
  ghost predicate Sequential(log: seq<Entry>) {
    forall i | 0 <= i < |log| :: log[i].answer == Apply(Replay(Ops(log)[..i]), log[i].op).1
  }

  /**
    The thread has returned the answers the history gives it, in order; apart from a call
    that has not taken effect yet, the history has all the calls its script has started.
   */
  ghost predicate Agrees(th: Thread, mine: seq<Entry>, script: seq<Op>) {
    var phase := PhaseOf(th.pc);
    && Answers(mine) == th.results + (if phase.Responding? then [phase.answer] else [])
    && script == Ops(mine) + (if phase.Invoked? then [phase.op] else []) + th.todo
  }

  ghost predicate Explains(s: State, log: seq<Entry>, scripts: seq<seq<Op>>) {
    && Sequential(log)
    && AbsSlots(s) == Replay(Ops(log))
    && |scripts| == |s.threads|
    && forall t | 0 <= t < |s.threads| :: Agrees(s.threads[t], Mine(log, t), scripts[t])
  }

  lemma MineAppend(log: seq<Entry>, e: Entry, t: nat)
    ensures Mine(log + [e], t) == Mine(log, t) + if e.tid == t then [e] else []
  {
    assert (log + [e])[..|log|] == log;
  }

  lemma OpsAppend(log: seq<Entry>, e: Entry)
    ensures Ops(log + [e]) == Ops(log) + [e.op]
  {
  }

  lemma ReplayAppend(ops: seq<Op>, op: Op)
    ensures Replay(ops + [op]) == Apply(Replay(ops), op).0
  {
    assert (ops + [op])[..|ops|] == ops;
  }

  lemma SequentialAppend(log: seq<Entry>, e: Entry)
    requires Sequential(log) && e.answer == Apply(Replay(Ops(log)), e.op).1
    ensures Sequential(log + [e]) && Replay(Ops(log + [e])) == Apply(Replay(Ops(log)), e.op).0
  {
    var longer, ops := log + [e], Ops(log);
    OpsAppend(log, e);
    ReplayAppend(ops, e.op);
    forall i | 0 <= i < |longer| ensures longer[i].answer == Apply(Replay(Ops(longer)[..i]), longer[i].op).1 {
      assert Ops(longer)[..i] == ops[..i];
      if i < |log| {
        assert longer[i] == log[i];
      } else {
        assert ops[..i] == ops;
      }
    }
  }

  lemma StepAgrees(s: State, t: nat, mine: seq<Entry>, script: seq<Op>)
    requires Enabled(s, t) && Agrees(s.threads[t], mine, script)
    ensures Agrees(Step(s, t).threads[t], mine + Logged(Effect(s, t)), script)
  {
    PhaseAfter(s, t);
    var th := s.threads[t];
    var mine' := mine + Logged(Effect(s, t));
    if Effect(s, t).Some? {
      assert Answers(mine') == Answers(mine) + [Effect(s, t).value.answer];
      assert Ops(mine') == Ops(mine) + [Effect(s, t).value.op];
    } else {
      assert mine' == mine;
      if th.pc.Idle? { assert [th.todo[0]] + th.todo[1..] == th.todo; }
    }
  }

  lemma MineLogged(log: seq<Entry>, e: Option<Entry>, t: nat)
    ensures Mine(log + Logged(e), t) == Mine(log, t) + if e.Some? && e.value.tid == t then Logged(e) else []
  {
    if e.Some? { MineAppend(log, e.value, t); } else { assert log + [] == log; }
  }

  lemma ThreadsAgree(s: State, t: nat, log: seq<Entry>, script: seq<Op>, u: nat)
    requires Enabled(s, t) && u < |s.threads| && Agrees(s.threads[u], Mine(log, u), script)
    ensures u < |Step(s, t).threads| && Agrees(Step(s, t).threads[u], Mine(log + Logged(Effect(s, t)), u), script)
  {
    PhaseAfter(s, t);
    MineLogged(log, Effect(s, t), u);
    if u == t {
      StepAgrees(s, t, Mine(log, t), script);
      assert Mine(log, t) + [] == Mine(log, t);
    } else {
      assert Mine(log, u) + [] == Mine(log, u);
    }
  }

  lemma StepExplains(s: State, t: nat, log: seq<Entry>, scripts: seq<seq<Op>>)
    requires Inv(s) && Enabled(s, t) && Explains(s, log, scripts)
    ensures Explains(Step(s, t), log + Logged(Effect(s, t)), scripts)
  {
    EffectIsApply(s, t);
    if Effect(s, t).Some? {
      SequentialAppend(log, Effect(s, t).value);
    } else {
      assert log + Logged(Effect(s, t)) == log;
    }
    assert |Step(s, t).threads| == |s.threads| by { PhaseAfter(s, t); }
    forall u | 0 <= u < |s.threads|
      ensures Agrees(Step(s, t).threads[u], Mine(log + Logged(Effect(s, t)), u), scripts[u])
    {
      ThreadsAgree(s, t, log, scripts[u], u);
    }
  }

  lemma Reassociate(a: seq<Entry>, b: seq<Entry>, c: seq<Entry>)
    ensures (a + b) + c == a + (b + c)
  {
  }

  lemma {:induction false} RunExplains(s: State, sched: seq<nat>, log: seq<Entry>, scripts: seq<seq<Op>>)
    requires Inv(s) && Legal(s, sched) && Explains(s, log, scripts)
    ensures Explains(Exec(s, sched), log + Log(s, sched), scripts)
    decreases |sched|
  {
    if sched == [] {
      assert log + Log(s, sched) == log;
    } else {
      var t := sched[0];
      var s', head, tail := Step(s, t), Logged(Effect(s, t)), Log(Step(s, t), sched[1..]);
      StepKeepsInv(s, t);
      StepExplains(s, t, log, scripts);
      RunExplains(s', sched[1..], log + head, scripts);
      Reassociate(log, head, tail);
      assert Log(s, sched) == head + tail;
    }
  }

  function Scripts(s: State): seq<seq<Op>> {
    seq(|s.threads|, t requires 0 <= t < |s.threads| => s.threads[t].todo)
  }

  /**
    Linearizability: the calls of any run, ordered by when they take effect, form a
    sequential history that explains every answer returned so far, thread by thread in
    program order.
   */
  lemma Linearizable(s: State, sched: seq<nat>)
    requires Init(s) && Legal(s, sched)
    ensures Explains(Exec(s, sched), Log(s, sched), Scripts(s))
  {
    InitHolds(s);
    forall m ensures AbsSlots(s).At(m) == NewSlots.At(m) {
      match m case AccountID => case Region => case WorkerID => case Zone =>
    }
    SameFour(AbsSlots(s), NewSlots);
    assert Explains(s, [], Scripts(s));
    RunExplains(s, sched, [], Scripts(s));
    assert [] + Log(s, sched) == Log(s, sched);
  }

  /** What happens later only adds to the history. */
  lemma {:induction false} HistoryOnlyGrows(s: State, before: seq<nat>, after: seq<nat>)
    requires Legal(s, before + after)
    ensures Legal(s, before) && Legal(Exec(s, before), after)
    ensures Exec(s, before + after) == Exec(Exec(s, before), after)
    ensures Log(s, before + after) == Log(s, before) + Log(Exec(s, before), after)
    decreases |before|
  {
    if before == [] {
      assert before + after == after;
    } else {
      assert (before + after)[1..] == before[1..] + after;
      HistoryOnlyGrows(Step(s, before[0]), before[1..], after);
    }
  }

  /** Entry `i` of the history is call number `k` of the script of thread `t`, counting from zero. */
  predicate IsCall(log: seq<Entry>, i: nat, t: nat, k: nat) {
    i < |log| && log[i].tid == t && |Mine(log[..i], t)| == k
  }

  /** A longer history has more of each thread's calls in it. */
  lemma {:induction false} MineGrows(log: seq<Entry>, i: nat, t: nat)
    requires i < |log|
    ensures |Mine(log[..i], t)| + (if log[i].tid == t then 1 else 0) <= |Mine(log, t)|
    decreases |log|
  {
    var init := log[..|log| - 1];
    if i < |log| - 1 {
      assert init[..i] == log[..i];
      MineGrows(init, i, t);
    }
  }

  /** Each of a thread's calls in the history has a place there. */
  lemma {:induction false} CallHasPlace(log: seq<Entry>, t: nat, k: nat) returns (i: nat)
    requires k < |Mine(log, t)|
    ensures IsCall(log, i, t, k)
    decreases |log|
  {
    i := |log| - 1;
    if k < |Mine(log[..i], t)| {
      var init := log[..i];
      i := CallHasPlace(init, t, k);
      assert init[..i] == log[..i];
    }
  }

  lemma FirstPart(front: seq<Entry>, back: seq<Entry>, i: nat, t: nat, k: nat)
    requires IsCall(front + back, i, t, k)
    ensures i < |front| <==> k < |Mine(front, t)|
  {
    var log := front + back;
    if i < |front| {
      assert log[..i] == front[..i];
      MineGrows(front, i, t);
    } else {
      assert log[..i][..|front|] == front;
      if i > |front| { MineGrows(log[..i], |front|, t); }
    }
  }

  /** How many calls of its script the thread has started. */
  function Started(script: seq<Op>, th: Thread): int { |script| - |th.todo| }

  /** What a state's history has of a thread: all calls that returned, none that did not start. */
  lemma CallsSoFar(s: State, sched: seq<nat>, t: nat)
    requires Init(s) && Legal(s, sched) && t < |s.threads|
    ensures t < |Exec(s, sched).threads|
    ensures var th := Exec(s, sched).threads[t];
      |th.results| <= |Mine(Log(s, sched), t)| <= Started(s.threads[t].todo, th)
  {
    Linearizable(s, sched);
    assert Agrees(Exec(s, sched).threads[t], Mine(Log(s, sched), t), Scripts(s)[t]);
  }

  /**
    Real-time order: when call `k` of thread `t` has returned before call `l` of thread `u`
    starts, its entry is there already, and comes first in the history of any longer run.
   */
  lemma RealTimeOrder(s: State, before: seq<nat>, after: seq<nat>, t: nat, k: nat, u: nat, l: nat) returns (i: nat)
    requires Init(s) && Legal(s, before + after) && Legal(s, before)
    requires t < |s.threads| == |Exec(s, before).threads| && u < |s.threads|
    requires k < |Exec(s, before).threads[t].results|
    requires Started(s.threads[u].todo, Exec(s, before).threads[u]) <= l
    ensures IsCall(Log(s, before + after), i, t, k)
    ensures forall j :: IsCall(Log(s, before + after), j, u, l) ==> i < j
  {
    HistoryOnlyGrows(s, before, after);
    var front, back := Log(s, before), Log(Exec(s, before), after);
    CallsSoFar(s, before, t);
    CallsSoFar(s, before, u);
    i := CallHasPlace(front, t, k);
    assert (front + back)[..i] == front[..i];
    forall j | IsCall(front + back, j, u, l) ensures i < j {
      FirstPart(front, back, j, u, l);
    }
  }

  /** The k-th call of a method gets what the configuration at its place in the history says. */
  lemma GetterAnswers(s: State, sched: seq<nat>, i: nat)
    requires Init(s) && Legal(s, sched) && i < |Log(s, sched)| && Log(s, sched)[i].op.Get?
    ensures var log := Log(s, sched); Due(Ops(log)[..i], log[i].op.m, log[i].answer)
  {
    Linearizable(s, sched);
    KthCallAnswer(Ops(Log(s, sched))[..i], Log(s, sched)[i].op.m);
  }

  lemma {:induction false} GetsGrow(ops: seq<Op>, i: nat, j: nat, m: Method)
    requires i <= j <= |ops|
    ensures Gets(ops[..i], m) <= Gets(ops[..j], m)
    decreases j
  {
    if i < j {
      assert ops[..j][..j - 1] == ops[..j - 1];
      GetsGrow(ops, i, j - 1, m);
    }
  }

  /** Every result of `Invocations` is covered by every later one. */
  lemma SnapshotsGrow(s: State, sched: seq<nat>, i: nat, j: nat, m: Method)
    requires Init(s) && Legal(s, sched) && i <= j < |Log(s, sched)|
    requires Log(s, sched)[i].op.Invocations? && Log(s, sched)[j].op.Invocations?
    ensures Log(s, sched)[i].answer.Snapshot? && Log(s, sched)[j].answer.Snapshot?
    ensures Log(s, sched)[i].answer.counts.At(m) <= Log(s, sched)[j].answer.counts.At(m)
  {
    var ops := Ops(Log(s, sched));
    Linearizable(s, sched);
    InvocationsAnswer(ops[..i], m);
    InvocationsAnswer(ops[..j], m);
    GetsGrow(ops, i, j, m);
  }

  /** A call count, under any interleaving, is the number of getter calls before it in the history. */
  lemma CountAnswers(s: State, sched: seq<nat>, i: nat)
    requires Init(s) && Legal(s, sched) && i < |Log(s, sched)| && Log(s, sched)[i].op.CallCount?
    ensures var log := Log(s, sched);
      log[i].answer == Count(|set j | 0 <= j < i && log[j].op == Get(log[i].op.m)|)
  {
    var log := Log(s, sched);
    var m := log[i].op.m;
    Linearizable(s, sched);
    CallCountAnswer(Ops(log)[..i], m);
    GetPlaces(log, i, m);
  }

  lemma GetPlaces(log: seq<Entry>, i: nat, m: Method)
    requires i <= |log|
    ensures (set j | 0 <= j < |Ops(log)[..i]| && Ops(log)[..i][j] == Get(m)) ==
      set j | 0 <= j < i && log[j].op == Get(m)
  {
  }

  lemma {:induction false} MineAt(log: seq<Entry>, i: nat, t: nat, k: nat)
    requires IsCall(log, i, t, k)
    ensures k < |Mine(log, t)| && Mine(log, t)[k] == log[i]
    decreases |log|
  {
    var init := log[..|log| - 1];
    if i < |log| - 1 {
      assert init[..i] == log[..i];
      MineAt(init, i, t, k);
    }
  }

  /**
    What a client sees: result `k` that a thread has been given is the answer of an entry
    of the history, and that entry is call `k` of the thread's script.
   */
  lemma ResultIsLogged(s: State, sched: seq<nat>, t: nat, k: nat) returns (i: nat)
    requires Init(s) && Legal(s, sched) && t < |s.threads| == |Exec(s, sched).threads|
    requires k < |Exec(s, sched).threads[t].results|
    ensures IsCall(Log(s, sched), i, t, k) && k < |s.threads[t].todo|
    ensures Log(s, sched)[i].op == s.threads[t].todo[k]
    ensures Log(s, sched)[i].answer == Exec(s, sched).threads[t].results[k]
  {
    var log, th := Log(s, sched), Exec(s, sched).threads[t];
    Linearizable(s, sched);
    var mine := Mine(log, t);
    assert Agrees(th, mine, Scripts(s)[t]);
    i := CallHasPlace(log, t, k);
    MineAt(log, i, t, k);
    assert Answers(mine)[k] == th.results[k] && Ops(mine)[k] == s.threads[t].todo[k];
  }
}
