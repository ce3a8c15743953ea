/**
  `RunAsync` of test_multi_pod_with_vol.go: the main goroutine adds the number of pods to
  a WaitGroup, starts one worker a pod and waits; each worker checks its pod under three
  deferred calls.  Any check, and any clean-up, may fail, which in Ginkgo is a panic.
 */
module WaitGroup {
  import opened Sums

  datatype Pod = Pod(cmdExits: bool)

  /** The three deferred calls of a worker, in the order in which it defers them. */
  datatype Deferred = Done | Recover | Cleanup

  datatype Instr = Defer(d: Deferred) | WaitForRunning | Exec | WaitForSuccess

  /**
    `Unwinding` runs the deferred calls, latest first, after a normal end or a panic.
    `cleaned` counts how often the worker's `Cleanup` has run.
   */
  datatype Worker =
    | Running(body: seq<Instr>, defers: seq<Deferred>)
    | Unwinding(defers: seq<Deferred>, panicking: bool, cleaned: nat)
    | Exited(cleaned: nat)

  datatype Main = Adding | Starting(next: nat) | Waiting | Returned

  /**
    `crashed` is a panic that leaves a goroutine, or a WaitGroup counter below zero: either
    ends the process.
   */
  datatype State = State(
    pods: seq<Pod>, podCheck: bool,
    main: Main, counter: int, workers: seq<Worker>, crashed: bool)

  /** Who steps; a worker's check or clean-up fails if `fails` says so. */
  datatype Event = MainStep | WorkerStep(k: nat, fails: bool)

  const Deferrals: seq<Deferred> := [Done, Recover, Cleanup]

  function Body(pod: Pod, podCheck: bool): seq<Instr> {
    [Defer(Done), Defer(Recover), Defer(Cleanup)] +
    if pod.cmdExits then [WaitForSuccess] else [WaitForRunning] + if podCheck then [Exec] else []
  }

  /** The checks of a worker, after its three deferrals: by the pod's kind, and by the pod check. */
  lemma ChecksAre(pod: Pod, podCheck: bool)
    ensures Body(pod, podCheck)[..3] == [Defer(Done), Defer(Recover), Defer(Cleanup)]
    ensures WaitForSuccess in Body(pod, podCheck) <==> pod.cmdExits
    ensures WaitForRunning in Body(pod, podCheck) <==> !pod.cmdExits
    ensures Exec in Body(pod, podCheck) <==> !pod.cmdExits && podCheck
    ensures !pod.cmdExits && podCheck ==> Body(pod, podCheck)[3..] == [WaitForRunning, Exec]
  {
  }

  predicate Enabled(s: State, e: Event) {
    && !s.crashed
    && match e
       case MainStep =>
         (match s.main
          case Adding => true
          case Starting(_) => true
          case Waiting => s.counter == 0
          case Returned => false)
       case WorkerStep(k, _) => k < |s.workers| && !s.workers[k].Exited?
  }

  function StepMain(s: State): State
    requires Enabled(s, MainStep)
  {
    match s.main
    case Adding => s.(counter := s.counter + |s.pods|, main := Starting(0))
    case Starting(next) =>
      if next < |s.pods| then
        s.(workers := s.workers + [Running(Body(s.pods[next], s.podCheck), [])],
           main := Starting(next + 1))
      else
        s.(main := Waiting)
    case Waiting => s.(main := Returned)
  }

  /** One step of a worker's own course. */
  function Act(w: Worker, fails: bool): Worker
    requires !w.Exited?
  {
    match w
    case Running(body, defers) =>
      if body == [] then Unwinding(defers, false, 0)
      else if body[0].Defer? then Running(body[1..], defers + [body[0].d])
      else if fails then Unwinding(defers, true, 0)
      else Running(body[1..], defers)
    case Unwinding(defers, panicking, cleaned) =>
      if defers == [] then Exited(cleaned)
      else
        var rest := defers[..|defers| - 1];
        match defers[|defers| - 1]
        case Cleanup => Unwinding(rest, panicking || fails, cleaned + 1)
        case Recover => Unwinding(rest, false, cleaned)
        case Done => Unwinding(rest, panicking, cleaned)
  }

  /** The worker's next step is `wg.Done`. */
  predicate AtDone(w: Worker) {
    w.Unwinding? && w.defers != [] && w.defers[|w.defers| - 1] == Done
  }

  function StepWorker(s: State, k: nat, fails: bool): State
    requires Enabled(s, WorkerStep(k, fails))
  {
    var w := s.workers[k];
    if w.Unwinding? && w.defers == [] && w.panicking then s.(crashed := true)
    else if AtDone(w) && s.counter <= 0 then s.(crashed := true)
    else s.(workers := s.workers[k := Act(w, fails)], counter := s.counter - if AtDone(w) then 1 else 0)
  }

  function Step(s: State, e: Event): State
    requires Enabled(s, e)
  {
    match e
    case MainStep => StepMain(s)
    case WorkerStep(k, fails) => StepWorker(s, k, fails)
  }

  predicate Legal(s: State, run: seq<Event>)
    decreases |run|
  {
    run == [] || (Enabled(s, run[0]) && Legal(Step(s, run[0]), run[1..]))
  }

  function After(s: State, run: seq<Event>): State
    requires Legal(s, run)
    decreases |run|
  {
    if run == [] then s else After(Step(s, run[0]), run[1..])
  }

  function Start(pods: seq<Pod>, podCheck: bool): State {
    State(pods, podCheck, Adding, 0, [], false)
  }

  /**
    What ends the process: a panic left over when a worker has no deferred call any more,
    as it would be without `Recover`, and a `Done` too many.  A normal end does not.
   */
  lemma WhatCrashes(s: State, k: nat)
    requires !s.crashed && k < |s.workers|
    ensures s.workers[k] == Running([WaitForRunning], []) ==>
      Step(Step(s, WorkerStep(k, true)), WorkerStep(k, false)).crashed
    ensures s.workers[k] == Unwinding([Cleanup], false, 0) ==>
      Step(Step(s, WorkerStep(k, true)), WorkerStep(k, false)).crashed
    ensures s.workers[k] == Running([], []) ==>
      !Step(Step(s, WorkerStep(k, false)), WorkerStep(k, false)).crashed
    ensures s.workers[k] == Unwinding([Done], false, 1) && s.counter == 0 ==>
      Step(s, WorkerStep(k, false)).crashed
  {
  }

  // ---------- the invariant ----------

  /** The worker has called `wg.Done`. */
  predicate HasDone(w: Worker) {
    w.Exited? || (w.Unwinding? && w.defers == [])
  }

  /** How often the worker's `Cleanup` should have run by now. */
  function Cleanups(w: Worker): nat {
    if w.Exited? || (w.Unwinding? && |w.defers| < 3) then 1 else 0
  }

  /**
    A worker's deferred calls are an initial part of the three, and its checks come after
    all three are deferred.  A panic does not outlive `Recover`.
   */
  predicate WorkerOk(w: Worker) {
    match w
    case Running(body, defers) =>
      && |defers| <= 3 && defers == Deferrals[..|defers|]
      && |body| >= 3 - |defers|
      && (forall i | 0 <= i < 3 - |defers| :: body[i] == Defer(Deferrals[|defers| + i]))
      && (forall i | 3 - |defers| <= i < |body| :: !body[i].Defer?)
    case Unwinding(defers, panicking, cleaned) =>
      && |defers| <= 3 && defers == Deferrals[..|defers|]
      && (|defers| <= 1 ==> !panicking) && cleaned == Cleanups(w)
    case Exited(cleaned) => cleaned == 1
  }

  function DoneWeight(w: Worker): nat { if HasDone(w) then 1 else 0 }

  function DoneCount(workers: seq<Worker>): nat { Sum(workers, DoneWeight) }

  predicate MainOk(s: State) {
    match s.main
    case Adding => s.counter == 0 && s.workers == []
    case Starting(next) => next == |s.workers| <= |s.pods| && s.counter == |s.pods| - DoneCount(s.workers)
    case Waiting => |s.workers| == |s.pods| && s.counter == |s.pods| - DoneCount(s.workers)
    case Returned => |s.workers| == |s.pods| && s.counter == 0 == |s.pods| - DoneCount(s.workers)
  }

  predicate Inv(s: State) {
    && !s.crashed && MainOk(s)
    && forall k | 0 <= k < |s.workers| :: WorkerOk(s.workers[k])
  }

  lemma DoneCountBound(workers: seq<Worker>)
    ensures DoneCount(workers) <= |workers|
    ensures DoneCount(workers) == |workers| <==> forall k | 0 <= k < |workers| :: HasDone(workers[k])
  {
    SumOfUnits(workers, DoneWeight);
  }

  lemma NewWorkerOk(pod: Pod, podCheck: bool)
    ensures var w := Running(Body(pod, podCheck), []); WorkerOk(w) && DoneWeight(w) == 0
  {
  }

  lemma StepMainKeepsInv(s: State)
    requires Inv(s) && Enabled(s, MainStep)
    ensures Inv(StepMain(s))
  {
    var s' := StepMain(s);
    if s.main.Starting? && s.main.next < |s.pods| {
      var w := Running(Body(s.pods[s.main.next], s.podCheck), []);
      NewWorkerOk(s.pods[s.main.next], s.podCheck);
      SumAppend(s.workers, DoneWeight, w);
      assert s'.workers == s.workers + [w];
    }
  }

  lemma ActKeepsOk(w: Worker, fails: bool)
    requires WorkerOk(w) && !w.Exited?
    ensures WorkerOk(Act(w, fails))
    ensures HasDone(Act(w, fails)) <==> HasDone(w) || AtDone(w)
    ensures HasDone(w) ==> !AtDone(w)
  {
    if w.Unwinding? && w.defers != [] {
      assert Deferrals[..|w.defers|][..|w.defers| - 1] == Deferrals[..|w.defers| - 1];
    }
  }

  lemma StepWorkerKeepsInv(s: State, k: nat, fails: bool)
    requires Inv(s) && Enabled(s, WorkerStep(k, fails))
    ensures Inv(StepWorker(s, k, fails))
  {
    var w := s.workers[k];
    ActKeepsOk(w, fails);
    SumUpdate(s.workers, DoneWeight, k, Act(w, fails));
    DoneCountBound(s.workers[k := Act(w, fails)]);
    DoneCountBound(s.workers);
  }

  lemma StepKeepsInv(s: State, e: Event)
    requires Inv(s) && Enabled(s, e)
    ensures Inv(Step(s, e))
  {
    match e
    case MainStep => StepMainKeepsInv(s);
    case WorkerStep(k, fails) => StepWorkerKeepsInv(s, k, fails);
  }

  lemma {:induction false} RunKeepsInv(s: State, run: seq<Event>)
    requires Inv(s) && Legal(s, run)
    ensures Inv(After(s, run))
    ensures After(s, run).pods == s.pods
    decreases |run|
  {
    if run != [] {
      StepKeepsInv(s, run[0]);
      RunKeepsInv(Step(s, run[0]), run[1..]);
    }
  }

  // ---------- the theorems ----------

  /**
    In every interleaving, whatever fails: once added up, the counter is the number of
    pods less the workers that are through, and it is never negative; no panic gets away.
   */
  lemma CounterIsExact(pods: seq<Pod>, podCheck: bool, run: seq<Event>)
    requires Legal(Start(pods, podCheck), run)
    ensures var s := After(Start(pods, podCheck), run);
      && !s.crashed && s.counter >= 0
      && (s.main != Adding ==> s.counter == |pods| - DoneCount(s.workers))
  {
    RunKeepsInv(Start(pods, podCheck), run);
    DoneCountBound(After(Start(pods, podCheck), run).workers);
  }

  /** `Wait` is passed only when every pod has had its clean-up, exactly once. */
  lemma WaitPassesAfterAllCleanups(pods: seq<Pod>, podCheck: bool, run: seq<Event>)
    requires Legal(Start(pods, podCheck), run)
    ensures var s := After(Start(pods, podCheck), run);
      s.main == Returned ==>
        |s.workers| == |pods| && forall k | 0 <= k < |pods| :: HasDone(s.workers[k]) && s.workers[k].cleaned == 1
  {
    var s := After(Start(pods, podCheck), run);
    RunKeepsInv(Start(pods, podCheck), run);
    if s.main == Returned {
      DoneCountBound(s.workers);
      assert forall k | 0 <= k < |pods| :: WorkerOk(s.workers[k]) && HasDone(s.workers[k]);
    }
  }

  /** No run gets stuck before the main goroutine has returned. */
  lemma SomeoneRuns(pods: seq<Pod>, podCheck: bool, run: seq<Event>) returns (e: Event)
    requires Legal(Start(pods, podCheck), run) && After(Start(pods, podCheck), run).main != Returned
    ensures Enabled(After(Start(pods, podCheck), run), e)
  {
    var s := After(Start(pods, podCheck), run);
    RunKeepsInv(Start(pods, podCheck), run);
    e := MainStep;
    if !Enabled(s, e) {
      DoneCountBound(s.workers);
      var k :| 0 <= k < |s.workers| && !HasDone(s.workers[k]);
      e := WorkerStep(k, false);
    }
  }

  // ---------- every run is finite ----------

  /** An upper bound on the steps a worker still has to take. */
  function WorkLeft(w: Worker): nat {
    match w
    case Running(body, defers) => 2 * |body| + |defers| + 2
    case Unwinding(defers, _, _) => |defers| + 1
    case Exited(_) => 0
  }

  function AllWorkLeft(workers: seq<Worker>): nat { Sum(workers, WorkLeft) }

  /** A worker is worth at most twelve steps from its start, and its start is one more. */
  function Left(s: State): nat {
    AllWorkLeft(s.workers) +
    match s.main
    case Adding => 13 * |s.pods| + 3
    case Starting(next) => if next <= |s.pods| then 13 * (|s.pods| - next) + 2 else 0
    case Waiting => 1
    case Returned => 0
  }

  lemma ActLeaves(w: Worker, fails: bool)
    requires !w.Exited?
    ensures WorkLeft(Act(w, fails)) < WorkLeft(w)
  {
  }

  lemma BodyIsShort(pod: Pod, podCheck: bool)
    ensures WorkLeft(Running(Body(pod, podCheck), [])) <= 12
  {
    assert |Body(pod, podCheck)| <= 5;
  }

  lemma MainStepLeaves(s: State)
    requires Inv(s) && Enabled(s, MainStep)
    ensures Left(StepMain(s)) < Left(s)
  {
    if s.main.Starting? && s.main.next < |s.pods| {
      var w := Running(Body(s.pods[s.main.next], s.podCheck), []);
      BodyIsShort(s.pods[s.main.next], s.podCheck);
      SumAppend(s.workers, WorkLeft, w);
    }
  }

  lemma StepLeaves(s: State, e: Event)
    requires Inv(s) && Enabled(s, e) && Inv(Step(s, e))
    ensures Left(Step(s, e)) < Left(s)
  {
    match e
    case WorkerStep(k, fails) =>
      ActLeaves(s.workers[k], fails);
      SumUpdate(s.workers, WorkLeft, k, Act(s.workers[k], fails));
    case MainStep =>
      MainStepLeaves(s);
  }

  /** So every run ends, and a run that cannot go on has returned from `Wait`. */
  lemma {:induction false} RunsAreFinite(s: State, run: seq<Event>)
    requires Inv(s) && Legal(s, run)
    ensures |run| + Left(After(s, run)) <= Left(s)
    decreases |run|
  {
    if run != [] {
      StepKeepsInv(s, run[0]);
      StepLeaves(s, run[0]);
      RunsAreFinite(Step(s, run[0]), run[1..]);
    }
  }

  lemma MaximalRunsReturn(pods: seq<Pod>, podCheck: bool, run: seq<Event>)
    requires Legal(Start(pods, podCheck), run)
    ensures |run| <= 13 * |pods| + 3
    ensures var s := After(Start(pods, podCheck), run);
      (forall e :: !Enabled(s, e)) ==> s.main == Returned
  {
    RunsAreFinite(Start(pods, podCheck), run);
    if After(Start(pods, podCheck), run).main != Returned {
      var e := SomeoneRuns(pods, podCheck, run);
    }
  }
}
