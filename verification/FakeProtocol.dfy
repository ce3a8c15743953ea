/**
  FakeNodeMetadata of pkg/metadata/fake_node_metadata.go as an interleaved step system:
  any number of threads, one reader-writer lock per method and one for the combined
  invocation map, every lock operation and every shared read or write its own step.

  A Go RWMutex lets a writer announce itself first; from then on it admits no new
  reader, and the writer enters once the readers inside have left.
 */
module FakeProtocol {
  import opened Wrappers
  import opened FakeSpec

  datatype Writer = Writer(tid: nat, entered: bool)

  datatype RWMutex = RWMutex(writer: Option<Writer>, readers: set<nat>)

  const FreeLock := RWMutex(None, {})

  /** What a getter has read so far; `pre` is the slot as it was when its lock was taken. */
  datatype Local = Local(pre: Slot, specific: Option<string>, stub: Option<nat>, fallback: string)

  datatype Pc =
    | Idle
    // a call that writes: wait for the method mutex
    | WantWrite(op: Op)
    | PendWrite(op: Op)
    // a getter, holding its method mutex
    | GetLookup(m: Method, pre: Slot)
    | GetAppend(m: Method, pre: Slot, specific: Option<string>)
    | GetStub(m: Method, pre: Slot, specific: Option<string>)
    | GetFallback(m: Method, pre: Slot, specific: Option<string>, stub: Option<nat>)
    | InvWant(m: Method, got: Local)
    | InvPend(m: Method, got: Local)
    | InvRecord(m: Method, got: Local)    // now holding invocationsMutex too
    | InvRelease(m: Method, got: Local)
    // a setter, holding its method mutex
    | SetStub(op: Op, pre: Slot)
    | SetRest(op: Op, pre: Slot)
    // about to release the method mutex
    | Release(op: Op, pre: Slot, answer: Answer)
    // a call count, holding the method mutex for reading
    | WantRead(m: Method)
    | CountRead(m: Method)
    | CountRelease(m: Method, n: nat)
    // Invocations: the invocation lock, then the four method locks, then back
    | SnapInv
    | SnapLock(m: Method)
    | SnapCopy
    | SnapDrop(m: Method, counts: Four<nat>)
    | SnapDropInv(counts: Four<nat>)
    // no lock held; about to return
    | Answering(op: Op, answer: Answer)

  datatype Thread = Thread(todo: seq<Op>, pc: Pc, results: seq<Answer>)

  /** `counts` is the length of each method's list in the invocation map. */
  datatype State = State(
    slots: Four<Slot>,
    counts: Four<nat>,
    slotLocks: Four<RWMutex>,
    invLock: RWMutex,
    threads: seq<Thread>)

  // ---------- lock operations ----------

  function Announce(l: RWMutex, t: nat): RWMutex { l.(writer := Some(Writer(t, false))) }
  function Enter(l: RWMutex, t: nat): RWMutex { l.(writer := Some(Writer(t, true))) }
  function Leave(l: RWMutex): RWMutex { l.(writer := None) }
  function ReadLock(l: RWMutex, t: nat): RWMutex { l.(readers := l.readers + {t}) }
  function ReadUnlock(l: RWMutex, t: nat): RWMutex { l.(readers := l.readers - {t}) }

  /** The order in which `Invocations` takes the method locks. */
  function Index(m: Method): nat {
    match m
    case AccountID => 0
    case Region => 1
    case WorkerID => 2
    case Zone => 3
  }

  function Next(m: Method): Method
    requires m != Zone
  {
    match m
    case AccountID => Region
    case Region => WorkerID
    case WorkerID => Zone
  }

  function Previous(m: Method): Method
    requires m != AccountID
  {
    match m
    case Region => AccountID
    case WorkerID => Region
    case Zone => WorkerID
  }

  // ---------- steps ----------

  function Start(op: Op): Pc {
    if op.Invocations? then SnapInv
    else if op.CallCount? then WantRead(op.m)
    else WantWrite(op)
  }

  function Goto(s: State, t: nat, pc: Pc): State
    requires t < |s.threads|
  {
    s.(threads := s.threads[t := s.threads[t].(pc := pc)])
  }

  function WithSlot(s: State, m: Method, slot: Slot): State { s.(slots := s.slots.With(m, slot)) }
  function WithLock(s: State, m: Method, l: RWMutex): State { s.(slotLocks := s.slotLocks.With(m, l)) }

  predicate Enabled(s: State, t: nat) {
    && t < |s.threads|
    && match s.threads[t].pc
       case Idle => s.threads[t].todo != []
       case WantWrite(op) => !op.Invocations? && s.slotLocks.At(op.m).writer.None?
       case PendWrite(op) => !op.Invocations? && s.slotLocks.At(op.m).readers == {}
       case SetStub(op, _) => !op.Invocations?
       case SetRest(op, _) => !op.Invocations?
       case Release(op, _, _) => !op.Invocations?
       case InvWant(_, _) => s.invLock.writer.None?
       case InvPend(_, _) => s.invLock.readers == {}
       case WantRead(m) => s.slotLocks.At(m).writer.None?
       case SnapInv => s.invLock.writer.None?
       case SnapLock(m) => s.slotLocks.At(m).writer.None?
       case _ => true
  }

  /**
    Go's rules for an RWMutex.  A reader waits while a writer is inside or has announced
    itself; a writer announces itself when no other has, and enters when no reader is left.
   */
  lemma RWMutexRules(s: State, t: nat, m: Method)
    requires t < |s.threads|
    ensures s.threads[t].pc == WantRead(m) || s.threads[t].pc == SnapLock(m) ==>
      (Enabled(s, t) <==> s.slotLocks.At(m).writer == None)
    ensures s.threads[t].pc == WantWrite(Get(m)) ==> (Enabled(s, t) <==> s.slotLocks.At(m).writer == None)
    ensures s.threads[t].pc == PendWrite(Get(m)) ==> (Enabled(s, t) <==> s.slotLocks.At(m).readers == {})
    ensures s.threads[t].pc.SnapInv? || s.threads[t].pc.InvWant? ==> (Enabled(s, t) <==> s.invLock.writer == None)
    ensures s.threads[t].pc.InvPend? ==> (Enabled(s, t) <==> s.invLock.readers == {})
  {
  }

  function Step(s: State, t: nat): State
    requires Enabled(s, t)
  {
    var th := s.threads[t];
    match th.pc
    case Idle =>
      s.(threads := s.threads[t := Thread(th.todo[1..], Start(th.todo[0]), th.results)])
    case WantWrite(op) =>
      Goto(WithLock(s, op.m, Announce(s.slotLocks.At(op.m), t)), t, PendWrite(op))
    case PendWrite(op) =>
      var pre := s.slots.At(op.m);
      Goto(WithLock(s, op.m, Enter(s.slotLocks.At(op.m), t)), t,
           if op.Get? then GetLookup(op.m, pre) else SetStub(op, pre))
    case GetLookup(m, pre) => Goto(s, t, GetAppend(m, pre, LookedUp(s.slots.At(m))))
    case GetAppend(m, pre, specific) =>
      var slot := s.slots.At(m);
      Goto(WithSlot(s, m, slot.(calls := slot.calls + 1)), t, GetStub(m, pre, specific))
    case GetStub(m, pre, specific) => Goto(s, t, GetFallback(m, pre, specific, s.slots.At(m).stub))
    case GetFallback(m, pre, specific, stub) =>
      Goto(s, t, InvWant(m, Local(pre, specific, stub, s.slots.At(m).fallback)))
    case InvWant(m, got) => Goto(s, t, InvPend(m, got)).(invLock := Announce(s.invLock, t))
    case InvPend(m, got) => Goto(s, t, InvRecord(m, got)).(invLock := Enter(s.invLock, t))
    case InvRecord(m, got) => Goto(s, t, InvRelease(m, got)).(counts := s.counts.With(m, s.counts.At(m) + 1))
    case InvRelease(m, got) =>
      // the choice reads only the getter's own variables
      Goto(s, t, Release(Get(m), got.pre, Choose(got.stub, got.specific, got.fallback))).(invLock := Leave(s.invLock))
    case SetStub(op, pre) =>
      var slot := s.slots.At(op.m);
      if op.Calls? then Goto(WithSlot(s, op.m, slot.(stub := op.stub)), t, Release(op, pre, Nothing))
      else Goto(WithSlot(s, op.m, slot.(stub := None)), t, SetRest(op, pre))
    case SetRest(op, pre) =>
      var slot := s.slots.At(op.m);
      if op.Returns? then
        Goto(WithSlot(s, op.m, slot.(fallback := op.result1)), t, Release(op, pre, Nothing))
      else if op.ReturnsOnCall? then
        Goto(WithSlot(s, op.m, slot.(onCall := slot.onCall[op.i := op.result1])), t, Release(op, pre, Nothing))
      else
        Goto(s, t, Release(op, pre, Nothing))
    case Release(op, pre, answer) =>
      Goto(WithLock(s, op.m, Leave(s.slotLocks.At(op.m))), t, Answering(op, answer))
    case WantRead(m) => Goto(WithLock(s, m, ReadLock(s.slotLocks.At(m), t)), t, CountRead(m))
    case CountRead(m) => Goto(s, t, CountRelease(m, s.slots.At(m).calls))
    case CountRelease(m, n) =>
      Goto(WithLock(s, m, ReadUnlock(s.slotLocks.At(m), t)), t, Answering(CallCount(m), Count(n)))
    case SnapInv => Goto(s, t, SnapLock(AccountID)).(invLock := ReadLock(s.invLock, t))
    case SnapLock(m) =>
      Goto(WithLock(s, m, ReadLock(s.slotLocks.At(m), t)), t, if m == Zone then SnapCopy else SnapLock(Next(m)))
    case SnapCopy => Goto(s, t, SnapDrop(Zone, s.counts))
    case SnapDrop(m, counts) =>
      Goto(WithLock(s, m, ReadUnlock(s.slotLocks.At(m), t)), t,
           if m == AccountID then SnapDropInv(counts) else SnapDrop(Previous(m), counts))
    case SnapDropInv(counts) =>
      Goto(s, t, Answering(Invocations, Snapshot(counts))).(invLock := ReadUnlock(s.invLock, t))
    case Answering(op, answer) =>
      s.(threads := s.threads[t := Thread(th.todo, Idle, th.results + [answer])])
  }

  // ---------- runs ----------

  predicate Legal(s: State, sched: seq<nat>)
    decreases |sched|
  {
    sched == [] || (Enabled(s, sched[0]) && Legal(Step(s, sched[0]), sched[1..]))
  }

  function Exec(s: State, sched: seq<nat>): State
    requires Legal(s, sched)
    decreases |sched|
  {
    if sched == [] then s else Exec(Step(s, sched[0]), sched[1..])
  }

  predicate Init(s: State) {
    && s.slots == NewSlots && s.counts == Four(0, 0, 0, 0)
    && s.slotLocks == Four(FreeLock, FreeLock, FreeLock, FreeLock) && s.invLock == FreeLock
    && forall t | 0 <= t < |s.threads| :: s.threads[t].pc == Idle && s.threads[t].results == []
  }

  // ---------- who should hold which lock ----------

  predicate WritesSlot(pc: Pc, m: Method) {
    match pc
    case GetLookup(n, _) => n == m
    case GetAppend(n, _, _) => n == m
    case GetStub(n, _, _) => n == m
    case GetFallback(n, _, _, _) => n == m
    case InvWant(n, _) => n == m
    case InvPend(n, _) => n == m
    case InvRecord(n, _) => n == m
    case InvRelease(n, _) => n == m
    case SetStub(op, _) => !op.Invocations? && op.m == m
    case SetRest(op, _) => !op.Invocations? && op.m == m
    case Release(op, _, _) => !op.Invocations? && op.m == m
    case _ => false
  }

  predicate PendsSlot(pc: Pc, m: Method) {
    pc.PendWrite? && !pc.op.Invocations? && pc.op.m == m
  }

  predicate ReadsSlot(pc: Pc, m: Method) {
    match pc
    case CountRead(n) => n == m
    case CountRelease(n, _) => n == m
    case SnapLock(n) => Index(m) < Index(n)
    case SnapCopy => true
    case SnapDrop(n, _) => Index(m) <= Index(n)
    case _ => false
  }

  predicate WritesInv(pc: Pc) { pc.InvRecord? || pc.InvRelease? }
  predicate ReadsInv(pc: Pc) { pc.SnapLock? || pc.SnapCopy? || pc.SnapDrop? || pc.SnapDropInv? }

  function PcOf(s: State, t: nat): Pc {
    if t < |s.threads| then s.threads[t].pc else Idle
  }

  ghost predicate SlotLockOk(s: State, m: Method, t: nat) {
    var l, pc := s.slotLocks.At(m), PcOf(s, t);
    && (l.writer == Some(Writer(t, true)) <==> WritesSlot(pc, m))
    && (l.writer == Some(Writer(t, false)) <==> PendsSlot(pc, m))
    && (t in l.readers <==> ReadsSlot(pc, m))
    && (WritesSlot(pc, m) ==> l.readers == {})
  }

  ghost predicate InvLockOk(s: State, t: nat) {
    var l, pc := s.invLock, PcOf(s, t);
    && (l.writer == Some(Writer(t, true)) <==> WritesInv(pc))
    && (l.writer == Some(Writer(t, false)) <==> pc.InvPend?)
    && (t in l.readers <==> ReadsInv(pc))
    && (WritesInv(pc) ==> l.readers == {})
  }

  // ---------- what the holder of a lock knows ----------

  predicate GotOk(pre: Slot, got: Local) {
    got == Local(pre, LookedUp(pre), pre.stub, pre.fallback)
  }

  predicate IsSetter(op: Op) { op.Calls? || op.Returns? || op.ReturnsOnCall? }

  predicate DataOk(s: State, pc: Pc) {
    match pc
    case GetLookup(m, pre) => s.slots.At(m) == pre
    case GetAppend(m, pre, specific) => s.slots.At(m) == pre && specific == LookedUp(pre)
    case GetStub(m, pre, specific) =>
      s.slots.At(m) == ApplySlot(pre, Get(m)).0 && specific == LookedUp(pre)
    case GetFallback(m, pre, specific, stub) =>
      s.slots.At(m) == ApplySlot(pre, Get(m)).0 && specific == LookedUp(pre) && stub == pre.stub
    case InvWant(m, got) => s.slots.At(m) == ApplySlot(got.pre, Get(m)).0 && GotOk(got.pre, got)
    case InvPend(m, got) => s.slots.At(m) == ApplySlot(got.pre, Get(m)).0 && GotOk(got.pre, got)
    case InvRecord(m, got) => s.slots.At(m) == ApplySlot(got.pre, Get(m)).0 && GotOk(got.pre, got)
    case InvRelease(m, got) => s.slots.At(m) == ApplySlot(got.pre, Get(m)).0 && GotOk(got.pre, got)
    case WantWrite(op) => op.Get? || IsSetter(op)
    case PendWrite(op) => op.Get? || IsSetter(op)
    case SetStub(op, pre) => IsSetter(op) && s.slots.At(op.m) == pre
    case SetRest(op, pre) => IsSetter(op) && !op.Calls? && s.slots.At(op.m) == pre.(stub := None)
    case Release(op, pre, answer) =>
      (op.Get? || IsSetter(op)) && (s.slots.At(op.m), answer) == ApplySlot(pre, op)
    case _ => true
  }

  /** A getter that has counted its call but not yet recorded it. */
  predicate Unrecorded(pc: Pc, m: Method) {
    match pc
    case GetStub(n, _, _) => n == m
    case GetFallback(n, _, _, _) => n == m
    case InvWant(n, _) => n == m
    case InvPend(n, _) => n == m
    case InvRecord(n, _) => n == m
    case _ => false
  }

  predicate Behind(s: State, m: Method) {
    var w := s.slotLocks.At(m).writer;
    w.Some? && w.value.entered && Unrecorded(PcOf(s, w.value.tid), m)
  }

  predicate CountsOk(s: State, m: Method) {
    s.slots.At(m).calls == s.counts.At(m) + if Behind(s, m) then 1 else 0
  }

  ghost predicate Inv(s: State) {
    && (forall m, t: nat :: SlotLockOk(s, m, t))
    && (forall t: nat :: InvLockOk(s, t))
    && (forall t: nat :: DataOk(s, PcOf(s, t)))
    && (forall m :: CountsOk(s, m))
  }

  // ---------- the invariant is inductive ----------

  lemma InitHolds(s: State)
    requires Init(s)
    ensures Inv(s)
  {
    assert forall t: nat :: PcOf(s, t) == Idle;
    forall m ensures s.slots.At(m) == NewSlot && s.counts.At(m) == 0 && s.slotLocks.At(m) == FreeLock {
      match m case AccountID => case Region => case WorkerID => case Zone =>
    }
  }

  /** What a step does to one method's lock, seen from that lock. */
  function LockAfter(l: RWMutex, pc: Pc, m: Method, t: nat): RWMutex {
    match pc
    case WantWrite(op) => if !op.Invocations? && op.m == m then Announce(l, t) else l
    case PendWrite(op) => if !op.Invocations? && op.m == m then Enter(l, t) else l
    case Release(op, _, _) => if !op.Invocations? && op.m == m then Leave(l) else l
    case WantRead(n) => if n == m then ReadLock(l, t) else l
    case CountRelease(n, _) => if n == m then ReadUnlock(l, t) else l
    case SnapLock(n) => if n == m then ReadLock(l, t) else l
    case SnapDrop(n, _) => if n == m then ReadUnlock(l, t) else l
    case _ => l
  }

  lemma LockEffect(s: State, t: nat, m: Method)
    requires Enabled(s, t)
    ensures Step(s, t).slotLocks.At(m) == LockAfter(s.slotLocks.At(m), PcOf(s, t), m, t)
  {
  }

  /** Inside a getter, with the method mutex held. */
  predicate Getting(pc: Pc) {
    || pc.GetLookup? || pc.GetAppend? || pc.GetStub? || pc.GetFallback?
    || pc.InvWant? || pc.InvPend? || pc.InvRecord? || pc.InvRelease?
  }

  lemma GetterWrites(s: State, t: nat, m: Method)
    requires Enabled(s, t) && Getting(PcOf(s, t))
    ensures WritesSlot(PcOf(Step(s, t), t), m) <==> WritesSlot(PcOf(s, t), m)
  {
  }

  lemma OtherWrites(s: State, t: nat, m: Method)
    requires Enabled(s, t) && DataOk(s, PcOf(s, t)) && !Getting(PcOf(s, t))
    ensures var pc, pc' := PcOf(s, t), PcOf(Step(s, t), t);
      WritesSlot(pc', m) <==>
        if pc.PendWrite? then pc.op.m == m else if pc.Release? then false else WritesSlot(pc, m)
  {
  }

  lemma WritesAfter(s: State, t: nat, m: Method)
    requires Enabled(s, t) && DataOk(s, PcOf(s, t))
    ensures var pc, pc' := PcOf(s, t), PcOf(Step(s, t), t);
      WritesSlot(pc', m) <==>
        if pc.PendWrite? then pc.op.m == m else if pc.Release? then false else WritesSlot(pc, m)
  {
    if Getting(PcOf(s, t)) { GetterWrites(s, t, m); } else { OtherWrites(s, t, m); }
  }

  lemma PendsAfter(s: State, t: nat, m: Method)
    requires Enabled(s, t) && DataOk(s, PcOf(s, t))
    ensures PendsSlot(PcOf(Step(s, t), t), m) <==> PcOf(s, t).WantWrite? && PcOf(s, t).op.m == m
  {
  }

  lemma ReadsAfter(s: State, t: nat, m: Method)
    requires Enabled(s, t)
    ensures var pc, pc' := PcOf(s, t), PcOf(Step(s, t), t);
      ReadsSlot(pc', m) <==>
        if (pc.WantRead? || pc.SnapLock?) && pc.m == m then true
        else if (pc.CountRelease? || pc.SnapDrop?) && pc.m == m then false else ReadsSlot(pc, m)
  {
  }

  lemma OwnSlotLock(s: State, t: nat, m: Method)
    requires Enabled(s, t) && SlotLockOk(s, m, t) && DataOk(s, PcOf(s, t))
    ensures SlotLockOk(Step(s, t), m, t)
  {
    LockEffect(s, t, m);
    WritesAfter(s, t, m);
    PendsAfter(s, t, m);
    ReadsAfter(s, t, m);
  }

  lemma OtherSlotLock(s: State, t: nat, m: Method, u: nat)
    requires Enabled(s, t) && SlotLockOk(s, m, t) && SlotLockOk(s, m, u) && u != t
    ensures SlotLockOk(Step(s, t), m, u)
  {
    LockEffect(s, t, m);
    OthersStay(s, t, u);
  }

  lemma InvLockEffect(s: State, t: nat)
    requires Enabled(s, t)
    ensures Step(s, t).invLock ==
      match PcOf(s, t)
      case InvWant(_, _) => Announce(s.invLock, t)
      case InvPend(_, _) => Enter(s.invLock, t)
      case InvRelease(_, _) => Leave(s.invLock)
      case SnapInv => ReadLock(s.invLock, t)
      case SnapDropInv(_) => ReadUnlock(s.invLock, t)
      case _ => s.invLock
  {
  }

  lemma InvClaimsAfter(s: State, t: nat)
    requires Enabled(s, t)
    ensures var pc, pc' := PcOf(s, t), PcOf(Step(s, t), t);
      && (WritesInv(pc') <==> pc.InvPend? || pc.InvRecord?)
      && (pc'.InvPend? <==> pc.InvWant?)
      && (ReadsInv(pc') <==> pc.SnapInv? || (ReadsInv(pc) && !pc.SnapDropInv?))
  {
  }

  lemma StepKeepsInvLock(s: State, t: nat, u: nat)
    requires Enabled(s, t) && InvLockOk(s, t) && InvLockOk(s, u)
    ensures InvLockOk(Step(s, t), u)
  {
    InvLockEffect(s, t);
    InvClaimsAfter(s, t);
    OthersStay(s, t, u);
  }

  /** A step moves no other thread. */
  lemma OthersStay(s: State, t: nat, u: nat)
    requires Enabled(s, t)
    ensures u != t ==> PcOf(Step(s, t), u) == PcOf(s, u)
  {
  }

  /** Only the holder of a method's mutex writes that method's fields. */
  lemma SlotsOfOthers(s: State, t: nat, m: Method)
    requires Inv(s) && Enabled(s, t) && !WritesSlot(PcOf(s, t), m)
    ensures Step(s, t).slots.At(m) == s.slots.At(m) && Step(s, t).counts.At(m) == s.counts.At(m)
  {
  }

  lemma GetterData(s: State, t: nat)
    requires Enabled(s, t) && DataOk(s, PcOf(s, t)) && Getting(PcOf(s, t))
    ensures DataOk(Step(s, t), PcOf(Step(s, t), t))
  {
  }

  lemma OwnData(s: State, t: nat)
    requires Enabled(s, t) && DataOk(s, PcOf(s, t))
    ensures DataOk(Step(s, t), PcOf(Step(s, t), t))
  {
    if Getting(PcOf(s, t)) { GetterData(s, t); }
  }

  lemma OtherData(s: State, t: nat, u: nat)
    requires Inv(s) && Enabled(s, t) && u != t
    ensures DataOk(Step(s, t), PcOf(Step(s, t), u))
  {
    assert PcOf(Step(s, t), u) == PcOf(s, u) && DataOk(s, PcOf(s, u));
    forall m | WritesSlot(PcOf(s, u), m) ensures Step(s, t).slots.At(m) == s.slots.At(m) {
      assert SlotLockOk(s, m, t) && SlotLockOk(s, m, u);
      SlotsOfOthers(s, t, m);
    }
    SameSlotsSameData(s, Step(s, t), PcOf(s, u));
  }

  lemma SameSlotsSameData(s: State, s': State, pc: Pc)
    requires DataOk(s, pc) && forall m | WritesSlot(pc, m) :: s'.slots.At(m) == s.slots.At(m)
    ensures DataOk(s', pc)
  {
  }

  lemma StepKeepsCounts(s: State, t: nat, m: Method)
    requires Inv(s) && Enabled(s, t)
    ensures CountsOk(Step(s, t), m)
  {
    assert SlotLockOk(s, m, t) && DataOk(s, PcOf(s, t)) && CountsOk(s, m);
    LockEffect(s, t, m);
    if WritesSlot(PcOf(s, t), m) {
      OwnCounts(s, t, m);
    } else {
      SlotsOfOthers(s, t, m);
      OtherCounts(s, t, m);
    }
  }

  /** A getter is behind with its record from the append to the record. */
  lemma GetterCounts(s: State, t: nat, m: Method)
    requires Enabled(s, t) && Getting(PcOf(s, t)) && WritesSlot(PcOf(s, t), m)
    ensures Step(s, t).slots.At(m).calls == s.slots.At(m).calls + if PcOf(s, t).GetAppend? then 1 else 0
    ensures Step(s, t).counts.At(m) == s.counts.At(m) + if PcOf(s, t).InvRecord? then 1 else 0
    ensures Unrecorded(PcOf(Step(s, t), t), m) <==>
      PcOf(s, t).GetAppend? || (Unrecorded(PcOf(s, t), m) && !PcOf(s, t).InvRecord?)
  {
  }

  lemma SetterCounts(s: State, t: nat, m: Method)
    requires Enabled(s, t) && !Getting(PcOf(s, t)) && WritesSlot(PcOf(s, t), m)
    ensures Step(s, t).slots.At(m).calls == s.slots.At(m).calls && Step(s, t).counts.At(m) == s.counts.At(m)
    ensures !Unrecorded(PcOf(Step(s, t), t), m)
  {
  }

  lemma OwnCounts(s: State, t: nat, m: Method)
    requires Enabled(s, t) && SlotLockOk(s, m, t) && CountsOk(s, m) && WritesSlot(PcOf(s, t), m)
    requires Step(s, t).slotLocks.At(m) == LockAfter(s.slotLocks.At(m), PcOf(s, t), m, t)
    ensures CountsOk(Step(s, t), m)
  {
    if Getting(PcOf(s, t)) { GetterCounts(s, t, m); } else { SetterCounts(s, t, m); }
  }

  lemma OtherCounts(s: State, t: nat, m: Method)
    requires Enabled(s, t) && SlotLockOk(s, m, t) && CountsOk(s, m) && !WritesSlot(PcOf(s, t), m)
    requires Step(s, t).slotLocks.At(m) == LockAfter(s.slotLocks.At(m), PcOf(s, t), m, t)
    requires Step(s, t).slots.At(m) == s.slots.At(m) && Step(s, t).counts.At(m) == s.counts.At(m)
    ensures CountsOk(Step(s, t), m)
  {
    var w := s.slotLocks.At(m).writer;
    if w.Some? && w.value.tid != t {
      assert PcOf(Step(s, t), w.value.tid) == PcOf(s, w.value.tid);
    }
  }

  lemma StepKeepsInv(s: State, t: nat)
    requires Inv(s) && Enabled(s, t)
    ensures Inv(Step(s, t))
  {
    var s' := Step(s, t);
    forall m, u: nat ensures SlotLockOk(s', m, u) {
      assert SlotLockOk(s, m, t) && SlotLockOk(s, m, u) && DataOk(s, PcOf(s, t));
      if u == t { OwnSlotLock(s, t, m); } else { OtherSlotLock(s, t, m, u); }
    }
    forall u: nat ensures InvLockOk(s', u) {
      assert InvLockOk(s, t) && InvLockOk(s, u);
      StepKeepsInvLock(s, t, u);
    }
    forall u: nat ensures DataOk(s', PcOf(s', u)) {
      assert DataOk(s, PcOf(s, t));
      if u == t { OwnData(s, t); } else { OtherData(s, t, u); }
    }
    forall m ensures CountsOk(s', m) { StepKeepsCounts(s, t, m); }
  }

  lemma {:induction false} RunKeepsInv(s: State, sched: seq<nat>)
    requires Inv(s) && Legal(s, sched)
    ensures Inv(Exec(s, sched))
    decreases |sched|
  {
    if sched != [] {
      StepKeepsInv(s, sched[0]);
      RunKeepsInv(Step(s, sched[0]), sched[1..]);
    }
  }
}
