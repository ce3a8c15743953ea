/**
  What FakeNodeMetadata promises a test, one call at a time: the sequential meaning of
  its calls, and a reference reading of that meaning straight off the call history.
 */
module FakeSpec {
  import opened Wrappers

  /** The four recorded methods; the source repeats the same code for each. */
  datatype Method = AccountID | Region | WorkerID | Zone

  /** One value per method. */
  datatype Four<T> = Four(accountID: T, region: T, workerID: T, zone: T) {
    function At(m: Method): T {
      match m
      case AccountID => accountID
      case Region => region
      case WorkerID => workerID
      case Zone => zone
    }

    function With(m: Method, v: T): (r: Four<T>)
      ensures forall n :: r.At(n) == if n == m then v else At(n)
    {
      match m
      case AccountID => this.(accountID := v)
      case Region => this.(region := v)
      case WorkerID => this.(workerID := v)
      case Zone => this.(zone := v)
    }
  }

  lemma SameFour<T>(a: Four<T>, b: Four<T>)
    requires forall m :: a.At(m) == b.At(m)
    ensures a == b
  {
    assert a.At(AccountID) == b.At(AccountID) && a.At(Region) == b.At(Region);
    assert a.At(WorkerID) == b.At(WorkerID) && a.At(Zone) == b.At(Zone);
  }

  /** The fields of one method.  A stub is foreign code, known here by a number only. */
  datatype Slot = Slot(stub: Option<nat>, calls: nat, fallback: string, onCall: map<int, string>)

  datatype Op =
    | Get(m: Method)
    | CallCount(m: Method)
    | Calls(m: Method, stub: Option<nat>)
    | Returns(m: Method, result1: string)
    | ReturnsOnCall(m: Method, i: int, result1: string)
    | Invocations

  datatype Answer =
    | FromStub(stub: nat)
    | Value(result1: string)
    | Count(n: nat)
    | Nothing
    | Snapshot(counts: Four<nat>)   // zero: the method has no key in the copied map

  function LookedUp(slot: Slot): Option<string> {
    if slot.calls in slot.onCall then Some(slot.onCall[slot.calls]) else None
  }

  /** The stub if there is one, else the value for this call, else the default. */
  function Choose(stub: Option<nat>, specific: Option<string>, default: string): Answer {
    if stub.Some? then FromStub(stub.value)
    else if specific.Some? then Value(specific.value)
    else Value(default)
  }

  function ApplySlot(slot: Slot, op: Op): (Slot, Answer) {
    match op
    case Get(_) => (slot.(calls := slot.calls + 1), Choose(slot.stub, LookedUp(slot), slot.fallback))
    case CallCount(_) => (slot, Count(slot.calls))
    case Calls(_, stub) => (slot.(stub := stub), Nothing)
    case Returns(_, v) => (slot.(stub := None, fallback := v), Nothing)
    case ReturnsOnCall(_, i, v) => (slot.(stub := None, onCall := slot.onCall[i := v]), Nothing)
    case Invocations => (slot, Nothing)
  }

  function CallsOf(slots: Four<Slot>): Four<nat> {
    Four(slots.accountID.calls, slots.region.calls, slots.workerID.calls, slots.zone.calls)
  }

  function Apply(slots: Four<Slot>, op: Op): (Four<Slot>, Answer) {
    if op.Invocations? then (slots, Snapshot(CallsOf(slots)))
    else
      var (slot, answer) := ApplySlot(slots.At(op.m), op);
      (slots.With(op.m, slot), answer)
  }

  const NewSlot := Slot(None, 0, "", map[])
  const NewSlots := Four(NewSlot, NewSlot, NewSlot, NewSlot)

  // ---------- reading the answers off the history ----------

  function Replay(history: seq<Op>): Four<Slot> {
    if history == [] then NewSlots
    else Apply(Replay(history[..|history| - 1]), history[|history| - 1]).0
  }

  /** How often the method has been called. */
  function Gets(history: seq<Op>, m: Method): nat {
    if history == [] then 0
    else Gets(history[..|history| - 1], m) + if history[|history| - 1] == Get(m) then 1 else 0
  }

  /** The stub in force: the latest one installed, unless a fixed result came after it. */
  function LatestStub(history: seq<Op>, m: Method): Option<nat> {
    if history == [] then None
    else
      match history[|history| - 1]
      case Calls(n, stub) => if n == m then stub else LatestStub(history[..|history| - 1], m)
      case Returns(n, _) => if n == m then None else LatestStub(history[..|history| - 1], m)
      case ReturnsOnCall(n, _, _) => if n == m then None else LatestStub(history[..|history| - 1], m)
      case _ => LatestStub(history[..|history| - 1], m)
  }

  function LatestDefault(history: seq<Op>, m: Method): string {
    if history == [] then ""
    else
      match history[|history| - 1]
      case Returns(n, v) => if n == m then v else LatestDefault(history[..|history| - 1], m)
      case _ => LatestDefault(history[..|history| - 1], m)
  }

  function LatestFor(history: seq<Op>, m: Method, k: int): Option<string> {
    if history == [] then None
    else
      match history[|history| - 1]
      case ReturnsOnCall(n, i, v) => if n == m && i == k then Some(v) else LatestFor(history[..|history| - 1], m, k)
      case _ => LatestFor(history[..|history| - 1], m, k)
  }

  lemma {:induction false} ReplayReadsHistory(history: seq<Op>, m: Method, k: int)
    ensures var slot := Replay(history).At(m);
      && slot.calls == Gets(history, m)
      && slot.stub == LatestStub(history, m)
      && slot.fallback == LatestDefault(history, m)
      && (if k in slot.onCall then Some(slot.onCall[k]) else None) == LatestFor(history, m, k)
  {
    if history != [] {
      ReplayReadsHistory(history[..|history| - 1], m, k);
    }
  }

  /**
    The answer that call k of a method is due after a history: the stub in force, else
    the latest value registered for call k, else the latest default.
   */
  predicate Due(history: seq<Op>, m: Method, answer: Answer) {
    var stub, specific := LatestStub(history, m), LatestFor(history, m, Gets(history, m));
    && (stub.Some? ==> answer == FromStub(stub.value))
    && (stub.None? && specific.Some? ==> answer == Value(specific.value))
    && (stub.None? && specific.None? ==> answer == Value(LatestDefault(history, m)))
  }

  /** The k-th call of a method, counting from zero, gets the answer it is due. */
  lemma KthCallAnswer(history: seq<Op>, m: Method)
    ensures Due(history, m, Apply(Replay(history), Get(m)).1)
  {
    ReplayReadsHistory(history, m, Gets(history, m));
  }

  /** `Invocations` reports exactly how often each method has been called. */
  lemma InvocationsAnswer(history: seq<Op>, m: Method)
    ensures Apply(Replay(history), Invocations).1.counts.At(m) == Gets(history, m)
  {
    ReplayReadsHistory(history, m, 0);
  }

  /** The number of times the getter was called, counted over the places of the history. */
  lemma {:induction false} GetsIsCount(history: seq<Op>, m: Method)
    ensures Gets(history, m) == |set i | 0 <= i < |history| && history[i] == Get(m)|
  {
    if history != [] {
      var last := |history| - 1;
      var before := set i | 0 <= i < last && history[..last][i] == Get(m);
      GetsIsCount(history[..last], m);
      var places := set i | 0 <= i < |history| && history[i] == Get(m);
      if history[last] == Get(m) {
        assert places == before + {last};
      } else {
        assert places == before;
      }
    }
  }

  /** A call count is the number of getter calls before it, and none before the first. */
  lemma CallCountAnswer(history: seq<Op>, m: Method)
    ensures Apply(Replay(history), CallCount(m)) == (Replay(history), Count(Gets(history, m)))
    ensures Gets(history, m) == |set i | 0 <= i < |history| && history[i] == Get(m)|
  {
    ReplayReadsHistory(history, m, 0);
    GetsIsCount(history, m);
    SameFour(Replay(history).With(m, Replay(history).At(m)), Replay(history));
  }

  // ---------- what a client has said last ----------

  /** The call settles whether a stub answers for `m`. */
  predicate SetsStub(op: Op, m: Method) {
    match op
    case Calls(n, _) => n == m
    case Returns(n, _) => n == m
    case ReturnsOnCall(n, _, _) => n == m
    case _ => false
  }

  lemma {:induction false} StubSince(history: seq<Op>, m: Method, i: nat)
    requires i < |history| && SetsStub(history[i], m)
    requires forall j | i < j < |history| :: !SetsStub(history[j], m)
    ensures LatestStub(history, m) == if history[i].Calls? then history[i].stub else None
  {
    if i < |history| - 1 { StubSince(history[..|history| - 1], m, i); }
  }

  lemma {:induction false} StubFrom(history: seq<Op>, m: Method) returns (i: nat)
    requires LatestStub(history, m).Some?
    ensures i < |history| && history[i] == Calls(m, Some(LatestStub(history, m).value))
    ensures forall j | i < j < |history| :: !SetsStub(history[j], m)
  {
    i := |history| - 1;
    if !SetsStub(history[i], m) { i := StubFrom(history[..i], m); }
  }

  lemma {:induction false} ValueSince(history: seq<Op>, m: Method, i: nat, k: int, v: string)
    requires i < |history| && history[i] == ReturnsOnCall(m, k, v)
    requires forall j, w | i < j < |history| :: history[j] != ReturnsOnCall(m, k, w)
    ensures LatestFor(history, m, k) == Some(v)
  {
    if i < |history| - 1 {
      var front, last := history[..|history| - 1], history[|history| - 1];
      assert last.ReturnsOnCall? ==> last != ReturnsOnCall(m, k, last.result1);
      ValueSince(front, m, i, k, v);
    }
  }

  lemma {:induction false} NoValueSet(history: seq<Op>, m: Method, k: int)
    requires forall j, w | 0 <= j < |history| :: history[j] != ReturnsOnCall(m, k, w)
    ensures LatestFor(history, m, k) == None
  {
    if history != [] {
      var front, last := history[..|history| - 1], history[|history| - 1];
      assert last.ReturnsOnCall? ==> last != ReturnsOnCall(m, k, last.result1);
      NoValueSet(front, m, k);
    }
  }

  lemma {:induction false} DefaultSince(history: seq<Op>, m: Method, i: nat, v: string)
    requires i < |history| && history[i] == Returns(m, v)
    requires forall j, w | i < j < |history| :: history[j] != Returns(m, w)
    ensures LatestDefault(history, m) == v
  {
    if i < |history| - 1 {
      var front, last := history[..|history| - 1], history[|history| - 1];
      assert last.Returns? ==> last != Returns(m, last.result1);
      DefaultSince(front, m, i, v);
    }
  }

  lemma {:induction false} NoDefaultSet(history: seq<Op>, m: Method)
    requires forall j, w | 0 <= j < |history| :: history[j] != Returns(m, w)
    ensures LatestDefault(history, m) == ""
  {
    if history != [] {
      var front, last := history[..|history| - 1], history[|history| - 1];
      assert last.Returns? ==> last != Returns(m, last.result1);
      NoDefaultSet(front, m);
    }
  }

  /** A stub answers from its `Calls` on until a `Calls`, `Returns` or `ReturnsOnCall` of the method. */
  lemma StubAnswers(history: seq<Op>, m: Method, i: nat, stub: nat)
    requires i < |history| && history[i] == Calls(m, Some(stub))
    requires forall j | i < j < |history| ::
      !(history[j].Calls? || history[j].Returns? || history[j].ReturnsOnCall?) || history[j].m != m
    ensures Apply(Replay(history), Get(m)).1 == FromStub(stub)
  {
    StubSince(history, m, i);
    KthCallAnswer(history, m);
  }

  /** Every stub installed for `m` has been dropped since. */
  ghost predicate StubsDropped(history: seq<Op>, m: Method) {
    forall i, stub | 0 <= i < |history| && history[i] == Calls(m, Some(stub)) ::
      exists j | i < j < |history| :: SetsStub(history[j], m)
  }

  lemma NoStubLeft(history: seq<Op>, m: Method)
    requires StubsDropped(history, m)
    ensures LatestStub(history, m) == None
  {
    if LatestStub(history, m).Some? {
      var i := StubFrom(history, m);
    }
  }

  lemma FixedAnswer(history: seq<Op>, m: Method, v: string)
    requires LatestStub(history, m) == None
    requires match LatestFor(history, m, Gets(history, m))
      case Some(specific) => specific == v
      case None => LatestDefault(history, m) == v
    ensures Apply(Replay(history), Get(m)).1 == Value(v)
  {
    KthCallAnswer(history, m);
  }

  /** Without a stub, call `k` gets the latest value registered for it, counting from zero. */
  lemma ValueAnswers(history: seq<Op>, m: Method, i: nat, k: nat, v: string)
    requires StubsDropped(history, m)
    requires k == |set i | 0 <= i < |history| && history[i] == Get(m)|
    requires i < |history| && history[i] == ReturnsOnCall(m, k, v)
    requires forall j, w | i < j < |history| :: history[j] != ReturnsOnCall(m, k, w)
    ensures Apply(Replay(history), Get(m)).1 == Value(v)
  {
    NoStubLeft(history, m);
    GetsIsCount(history, m);
    ValueSince(history, m, i, k, v);
    FixedAnswer(history, m, v);
  }

  /** Without either it gets the default of the latest `Returns`. */
  lemma DefaultAnswers(history: seq<Op>, m: Method, i: nat, k: nat, v: string)
    requires StubsDropped(history, m)
    requires k == |set i | 0 <= i < |history| && history[i] == Get(m)|
    requires forall j, w | 0 <= j < |history| :: history[j] != ReturnsOnCall(m, k, w)
    requires i < |history| && history[i] == Returns(m, v)
    requires forall j, w | i < j < |history| :: history[j] != Returns(m, w)
    ensures Apply(Replay(history), Get(m)).1 == Value(v)
  {
    NoStubLeft(history, m);
    GetsIsCount(history, m);
    NoValueSet(history, m, k);
    DefaultSince(history, m, i, v);
    FixedAnswer(history, m, v);
  }

  /** With nothing set for the call at all, it gets the empty string. */
  lemma EmptyAnswers(history: seq<Op>, m: Method, k: nat)
    requires StubsDropped(history, m)
    requires k == |set i | 0 <= i < |history| && history[i] == Get(m)|
    requires forall j, w | 0 <= j < |history| :: history[j] != ReturnsOnCall(m, k, w)
    requires forall j, w | 0 <= j < |history| :: history[j] != Returns(m, w)
    ensures Apply(Replay(history), Get(m)).1 == Value("")
  {
    NoStubLeft(history, m);
    GetsIsCount(history, m);
    NoValueSet(history, m, k);
    NoDefaultSet(history, m);
    FixedAnswer(history, m, "");
  }

  /** A getter right after `Returns`, `ReturnsOnCall` or an empty `Calls` never meets a stub. */
  lemma SettersDropStubs(history: seq<Op>, m: Method, i: int, v: string)
    ensures !Apply(Replay(history + [Returns(m, v)]), Get(m)).1.FromStub?
    ensures !Apply(Replay(history + [ReturnsOnCall(m, i, v)]), Get(m)).1.FromStub?
    ensures !Apply(Replay(history + [Calls(m, None)]), Get(m)).1.FromStub?
  {
    NoStubAfter(history, Returns(m, v), m);
    NoStubAfter(history, ReturnsOnCall(m, i, v), m);
    NoStubAfter(history, Calls(m, None), m);
  }

  lemma NoStubAfter(history: seq<Op>, op: Op, m: Method)
    requires op.Returns? || op.ReturnsOnCall? || op == Calls(m, None)
    requires op.m == m
    ensures !Apply(Replay(history + [op]), Get(m)).1.FromStub?
  {
    StubSince(history + [op], m, |history|);
    KthCallAnswer(history + [op], m);
  }
}
