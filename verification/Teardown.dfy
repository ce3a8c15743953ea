/**
  The deferred clean-up of test_pod_with_vol.go and of the setup helpers in basesetups.go:
  what is registered while pods and volumes are set up, and in which order it runs when
  the test function returns or panics.
 */
module Teardown {
  /** Removing the claim of one volume of a pod, or the pod (or deployment) itself. */
  datatype Action = RemovePvc(pod: nat, volume: nat) | RemovePod(pod: nat)

  /** Where the test fails, which is a panic: while a pod is created, or when it is checked. */
  datatype Fault = NoFault | CreateFails(pod: nat) | CheckFails(pod: nat)

  // ---------- setup helpers ----------

  function PvcRemovals(pod: nat, volumes: nat): (list: seq<Action>)
    ensures |list| == volumes && forall v | 0 <= v < volumes :: list[v] == RemovePvc(pod, v)
  {
    seq(volumes, v requires 0 <= v < volumes => RemovePvc(pod, v))
  }

  /** Creates one claim and returns its clean-up. */
  method SetupDynamicPersistentVolumeClaim(pod: nat, volume: nat) returns (cleanupFuncs: seq<Action>)
    ensures cleanupFuncs == [RemovePvc(pod, volume)]
  {
    cleanupFuncs := [];
    cleanupFuncs := cleanupFuncs + [RemovePvc(pod, volume)];
  }

  method SetupWithDynamicVolumes(pod: nat, volumes: nat) returns (cleanupFuncs: seq<Action>)
    ensures cleanupFuncs == PvcRemovals(pod, volumes)
  {
    cleanupFuncs := [];
    for n := 0 to volumes
      invariant cleanupFuncs == PvcRemovals(pod, n)
    {
      var funcs := SetupDynamicPersistentVolumeClaim(pod, n);
      cleanupFuncs := cleanupFuncs + funcs;
    }
  }

  method SetupDeploymentWithMultiVol(pod: nat, volumes: nat) returns (cleanupFuncs: seq<Action>)
    ensures cleanupFuncs == PvcRemovals(pod, volumes) + [RemovePod(pod)]
  {
    cleanupFuncs := [];
    for n := 0 to volumes
      invariant cleanupFuncs == PvcRemovals(pod, n)
    {
      cleanupFuncs := cleanupFuncs + [RemovePvc(pod, n)];
    }
    cleanupFuncs := cleanupFuncs + [RemovePod(pod)];
  }

  // ---------- Go's deferred calls ----------

  function Reversed(s: seq<Action>): (r: seq<Action>)
    ensures |r| == |s| && forall i | 0 <= i < |s| :: r[i] == s[|s| - 1 - i]
  {
    seq(|s|, i requires 0 <= i < |s| => s[|s| - 1 - i])
  }

  class DeferStack {
    var calls: seq<Action>

    constructor ()
      ensures calls == []
    {
      calls := [];
    }

    method Defer(a: Action)
      modifies this
      ensures calls == old(calls) + [a]
    {
      calls := calls + [a];
    }

    /** Runs the deferred calls, the latest first. */
    method Unwind() returns (executed: seq<Action>)
      modifies this
      ensures calls == [] && executed == Reversed(old(calls))
    {
      executed := [];
      while calls != []
        invariant |calls| <= |old(calls)| && calls == old(calls)[..|calls|]
        invariant |executed| == |old(calls)| - |calls|
        invariant forall i | 0 <= i < |executed| :: executed[i] == old(calls)[|old(calls)| - 1 - i]
        decreases |calls|
      {
        executed := executed + [calls[|calls| - 1]];
        calls := calls[..|calls| - 1];
      }
    }
  }

  // ---------- a test over many pods ----------

  /** What pod `p` registers. */
  function Registers(volumes: seq<nat>, fault: Fault, p: nat): seq<Action>
    requires p < |volumes|
  {
    PvcRemovals(p, volumes[p]) + if fault == CreateFails(p) then [] else [RemovePod(p)]
  }

  /** What the first `n` pods register, in order; nothing follows a fault. */
  function Registered(volumes: seq<nat>, fault: Fault, n: nat): seq<Action>
    requires n <= |volumes|
  {
    if n == 0 then []
    else if Reached(fault, n - 1) then Registered(volumes, fault, n - 1) + Registers(volumes, fault, n - 1)
    else Registered(volumes, fault, n - 1)
  }

  /** Pod `p` is set up: no pod before it has failed. */
  predicate Reached(fault: Fault, p: nat) {
    fault == NoFault || p <= fault.pod
  }

  /** The pod exists, so it has to be removed. */
  predicate Created(fault: Fault, p: nat) {
    Reached(fault, p) && fault != CreateFails(p)
  }

  /** `volumes[p]` is the number of volumes of pod `p`; the clean-ups that run, in order. */
  method Run(volumes: seq<nat>, fault: Fault) returns (executed: seq<Action>)
    ensures executed == Reversed(Registered(volumes, fault, |volumes|))
  {
    var defers := new DeferStack();
    var failed := false;
    for n := 0 to |volumes|
      invariant failed <==> !Reached(fault, n)
      invariant defers.calls == Registered(volumes, fault, n)
    {
      if !failed {
        var cleanup := SetupWithDynamicVolumes(n, volumes[n]);
        for i := 0 to |cleanup|
          invariant defers.calls == Registered(volumes, fault, n) + cleanup[..i]
        {
          defers.Defer(cleanup[i]);
        }
        assert cleanup[..|cleanup|] == cleanup;
        if fault == CreateFails(n) {
          failed := true;
        } else {
          defers.Defer(RemovePod(n));
          if fault == CheckFails(n) {
            failed := true;
          }
        }
      }
    }
    executed := defers.Unwind();
  }

  // ---------- the order of teardown ----------

  /** `a` is registered before `b`: earlier pods first, and a pod after its own volumes. */
  predicate Before(a: Action, b: Action) {
    a.pod < b.pod || (a.pod == b.pod && a.RemovePvc? && (b.RemovePod? || a.volume < b.volume))
  }

  ghost predicate Ordered(s: seq<Action>) {
    forall i, j | 0 <= i < j < |s| :: Before(s[i], s[j])
  }

  /** There is something to remove: the claims of every pod set up, and every pod created. */
  predicate Due(volumes: seq<nat>, fault: Fault, a: Action) {
    && a.pod < |volumes|
    && match a
       case RemovePvc(p, v) => Reached(fault, p) && v < volumes[p]
       case RemovePod(p) => Created(fault, p)
  }

  lemma RegistersIs(volumes: seq<nat>, fault: Fault, p: nat, a: Action)
    requires p < |volumes| && Reached(fault, p)
    ensures a in Registers(volumes, fault, p) <==> a.pod == p && Due(volumes, fault, a)
    ensures Ordered(Registers(volumes, fault, p))
  {
    if a.RemovePvc? && a.pod == p && a.volume < volumes[p] {
      assert Registers(volumes, fault, p)[a.volume] == a;
    }
    if a == RemovePod(p) && fault != CreateFails(p) {
      assert Registers(volumes, fault, p)[volumes[p]] == a;
    }
  }

  lemma InEither(front: seq<Action>, back: seq<Action>, a: Action)
    ensures a in front + back <==> a in front || a in back
  {
  }

  /** What pod `p` adds to the registered clean-ups. */
  lemma NextRegistered(volumes: seq<nat>, fault: Fault, p: nat, a: Action)
    requires p < |volumes|
    ensures a in Registered(volumes, fault, p + 1) <==>
      a in Registered(volumes, fault, p) || (a.pod == p && Due(volumes, fault, a))
  {
    var before := Registered(volumes, fault, p);
    if Reached(fault, p) {
      RegistersIs(volumes, fault, p, a);
      assert Registered(volumes, fault, p + 1) == before + Registers(volumes, fault, p);
      InEither(before, Registers(volumes, fault, p), a);
    } else {
      assert Registered(volumes, fault, p + 1) == before;
    }
  }

  lemma {:induction false} RegisteredIsDue(volumes: seq<nat>, fault: Fault, n: nat, a: Action)
    requires n <= |volumes|
    ensures a in Registered(volumes, fault, n) <==> a.pod < n && Due(volumes, fault, a)
  {
    if n > 0 {
      RegisteredIsDue(volumes, fault, n - 1, a);
      NextRegistered(volumes, fault, n - 1, a);
    }
  }

  lemma OrderedConcat(front: seq<Action>, back: seq<Action>, p: nat)
    requires Ordered(front) && Ordered(back)
    requires (forall a | a in front :: a.pod < p) && forall b | b in back :: b.pod == p
    ensures Ordered(front + back)
  {
  }

  lemma PodsOfRegistered(volumes: seq<nat>, fault: Fault, p: nat)
    requires p < |volumes| && Reached(fault, p)
    ensures forall a | a in Registered(volumes, fault, p) :: a.pod < p
    ensures forall b | b in Registers(volumes, fault, p) :: b.pod == p
    ensures Ordered(Registers(volumes, fault, p))
  {
    forall a | a in Registered(volumes, fault, p) ensures a.pod < p {
      RegisteredIsDue(volumes, fault, p, a);
    }
    forall b | b in Registers(volumes, fault, p) ensures b.pod == p {
      RegistersIs(volumes, fault, p, b);
    }
    RegistersIs(volumes, fault, p, RemovePod(p));
  }

  lemma {:induction false} RegisteredIsOrdered(volumes: seq<nat>, fault: Fault, n: nat)
    requires n <= |volumes|
    ensures Ordered(Registered(volumes, fault, n))
  {
    if n > 0 {
      RegisteredIsOrdered(volumes, fault, n - 1);
      if Reached(fault, n - 1) {
        var front, back := Registered(volumes, fault, n - 1), Registers(volumes, fault, n - 1);
        PodsOfRegistered(volumes, fault, n - 1);
        OrderedConcat(front, back, n - 1);
      }
    }
  }

  lemma ExecutedIsDue(volumes: seq<nat>, fault: Fault, executed: seq<Action>, a: Action)
    requires executed == Reversed(Registered(volumes, fault, |volumes|))
    ensures a in executed <==> Due(volumes, fault, a)
  {
    var reg := Registered(volumes, fault, |volumes|);
    RegisteredIsDue(volumes, fault, |volumes|, a);
    if k :| 0 <= k < |reg| && reg[k] == a {
      assert executed[|reg| - 1 - k] == a;
    }
  }

  /**
    However the test ends, the clean-ups that run are exactly the ones that are due, each
    once; every pod goes before the claims it mounts, and later pods before earlier ones.
   */
  lemma TeardownIsRight(volumes: seq<nat>, fault: Fault, executed: seq<Action>, i: nat, j: nat)
    requires executed == Reversed(Registered(volumes, fault, |volumes|))
    requires i < |executed| && j < |executed|
    ensures forall a :: a in executed <==> Due(volumes, fault, a)
    ensures executed[i] == executed[j] ==> i == j
    ensures executed[i].RemovePod? && executed[j].RemovePvc? && executed[i].pod == executed[j].pod ==> i < j
    ensures executed[i].pod > executed[j].pod ==> i < j
  {
    var reg := Registered(volumes, fault, |volumes|);
    RegisteredIsOrdered(volumes, fault, |volumes|);
    forall a ensures a in executed <==> Due(volumes, fault, a) {
      ExecutedIsDue(volumes, fault, executed, a);
    }
    assert executed[i] == reg[|reg| - 1 - i] && executed[j] == reg[|reg| - 1 - j];
  }

  /**
    Which these are: the claims of every pod up to the one that fails, whose own claims are
    there already, and every pod that was created, one that fails its check included.
   */
  lemma RemovedExactly(volumes: seq<nat>, fault: Fault, executed: seq<Action>, p: nat, v: nat)
    requires executed == Reversed(Registered(volumes, fault, |volumes|))
    ensures RemovePvc(p, v) in executed <==>
      p < |volumes| && v < volumes[p] && (fault == NoFault || p <= fault.pod)
    ensures RemovePod(p) in executed <==>
      p < |volumes| && (fault == NoFault || p < fault.pod || fault == CheckFails(p))
  {
    ExecutedIsDue(volumes, fault, executed, RemovePvc(p, v));
    ExecutedIsDue(volumes, fault, executed, RemovePod(p));
  }

  // ---------- a test of one deployment with several volumes ----------

  datatype Stage = Create | WaitForPodReady | Exec | DeletePodAndWait

  /** What the test does with the deployment; the checks are made only with a `PodCheck`. */
  function Plan(podCheck: bool): seq<Stage> {
    var check := if podCheck then [Exec] else [];
    var again := [DeletePodAndWait, WaitForPodReady];
    [Create, WaitForPodReady] + check + again + check + again
  }

  /** The stages made and whether the last of them panicked, when the code has come past `plan`. */
  function Ran(plan: seq<Stage>, succeeds: (nat, Stage) -> bool): (seq<Stage>, bool) {
    if plan == [] then ([], false)
    else
      var (made, panicking) := Ran(plan[..|plan| - 1], succeeds);
      var stage := plan[|plan| - 1];
      if panicking then (made, true) else (made + [stage], !succeeds(|made|, stage))
  }

  lemma RanNext(plan: seq<Stage>, stage: Stage, succeeds: (nat, Stage) -> bool)
    ensures var (made, panicking) := Ran(plan, succeeds);
      Ran(plan + [stage], succeeds) ==
        if panicking then (made, true) else (made + [stage], !succeeds(|made|, stage))
  {
    assert (plan + [stage])[..|plan|] == plan;
  }

  /** That is all of the plan, or as far as its first stage that panics. */
  lemma {:induction false} RanIs(plan: seq<Stage>, succeeds: (nat, Stage) -> bool)
    ensures var (made, panicking) := Ran(plan, succeeds);
      && made <= plan
      && (forall i | 0 <= i < |made| - 1 :: succeeds(i, made[i]))
      && (if panicking then made != [] && !succeeds(|made| - 1, made[|made| - 1])
          else made == plan && (made != [] ==> succeeds(|made| - 1, made[|made| - 1])))
  {
    if plan != [] {
      RanIs(plan[..|plan| - 1], succeeds);
      assert plan == plan[..|plan| - 1] + [plan[|plan| - 1]];
    }
  }

  lemma PlanIs(podCheck: bool)
    ensures Plan(podCheck) ==
      if podCheck then
        [Create, WaitForPodReady, Exec, DeletePodAndWait, WaitForPodReady, Exec, DeletePodAndWait, WaitForPodReady]
      else
        [Create, WaitForPodReady, DeletePodAndWait, WaitForPodReady, DeletePodAndWait, WaitForPodReady]
  {
  }

  class DeploymentTest {
    const succeeds: (nat, Stage) -> bool   // what the cluster makes of the n-th stage
    const defers: DeferStack
    var made: seq<Stage>
    var panicking: bool

    constructor (succeeds: (nat, Stage) -> bool)
      ensures this.succeeds == succeeds && made == [] && !panicking
      ensures fresh(defers) && defers.calls == []
    {
      this.succeeds := succeeds;
      defers := new DeferStack();
      made := [];
      panicking := false;
    }

    /** One stage, which a panic before it skips. */
    method Do(stage: Stage, ghost plan: seq<Stage>)
      requires (made, panicking) == Ran(plan, succeeds)
      modifies this
      ensures (made, panicking) == Ran(plan + [stage], succeeds)
    {
      RanNext(plan, stage, succeeds);
      if !panicking {
        panicking := !succeeds(|made|, stage);
        made := made + [stage];
      }
    }

    /** What the test does between its setup and its clean-up. */
    method Exercise(podCheck: bool)
      requires made == [] && !panicking
      modifies this
      ensures (made, panicking) == Ran(Plan(podCheck), succeeds)
    {
      Do(Create, []);
      Do(WaitForPodReady, [Create]);
      ghost var plan := [Create, WaitForPodReady];
      if podCheck {
        Do(Exec, plan);
        plan := plan + [Exec];
      }
      Do(DeletePodAndWait, plan);
      Do(WaitForPodReady, plan + [DeletePodAndWait]);
      plan := plan + [DeletePodAndWait] + [WaitForPodReady];
      if podCheck {
        Do(Exec, plan);
        plan := plan + [Exec];
      }
      Do(DeletePodAndWait, plan);
      Do(WaitForPodReady, plan + [DeletePodAndWait]);
      assert plan + [DeletePodAndWait] + [WaitForPodReady] == Plan(podCheck);
    }

    method RunMultiVol(volumes: nat, podCheck: bool) returns (executed: seq<Action>)
      requires made == [] && !panicking && defers.calls == []
      modifies this, defers
      ensures (made, panicking) == Ran(Plan(podCheck), succeeds)
      ensures !panicking && podCheck ==>
        made ==
        [Create, WaitForPodReady, Exec, DeletePodAndWait, WaitForPodReady, Exec, DeletePodAndWait, WaitForPodReady]
      ensures !panicking && !podCheck ==>
        made == [Create, WaitForPodReady, DeletePodAndWait, WaitForPodReady, DeletePodAndWait, WaitForPodReady]
      ensures panicking ==> made != [] && !succeeds(|made| - 1, made[|made| - 1]) && made <= Plan(podCheck)
      ensures executed == Reversed(Registered([volumes], NoFault, 1)) && defers.calls == []
    {
      var cleanup := SetupDeploymentWithMultiVol(0, volumes);
      for i := 0 to |cleanup|
        invariant made == [] && !panicking && defers.calls == cleanup[..i]
      {
        defers.Defer(cleanup[i]);
      }
      assert cleanup[..|cleanup|] == cleanup;
      RegisteredByOne(volumes, cleanup);
      Exercise(podCheck);
      RanIs(Plan(podCheck), succeeds);
      PlanIs(podCheck);
      executed := defers.Unwind();
    }
  }

  /** A deployment registers what a single pod that starts well does. */
  lemma RegisteredByOne(volumes: nat, cleanup: seq<Action>)
    requires cleanup == PvcRemovals(0, volumes) + [RemovePod(0)]
    ensures Registered([volumes], NoFault, 1) == cleanup
  {
    assert Registered([volumes], NoFault, 0) == [];
  }

  /**
    Whatever stage of a deployment test fails, the clean-ups that run are the deployment's,
    first of all, and then each claim's, exactly once.
   */
  lemma DeploymentGoesFirst(volumes: nat, executed: seq<Action>, i: nat, j: nat)
    requires executed == Reversed(Registered([volumes], NoFault, 1)) && i < |executed| && j < |executed|
    ensures forall a :: a in executed <==> a == RemovePod(0) || (a.RemovePvc? && a.pod == 0 && a.volume < volumes)
    ensures executed[i] == executed[j] ==> i == j
    ensures executed[i] == RemovePod(0) <==> i == 0
    ensures executed[i].RemovePod? && executed[j].RemovePvc? ==> i < j
  {
    TeardownIsRight([volumes], NoFault, executed, i, j);
    assert Due([volumes], NoFault, RemovePod(0));
    var k :| 0 <= k < |executed| && executed[k] == RemovePod(0);
    TeardownIsRight([volumes], NoFault, executed, k, i);
    TeardownIsRight([volumes], NoFault, executed, k, 0);
    assert forall l | 0 <= l < |executed| :: executed[l] in executed && Due([volumes], NoFault, executed[l]);
  }
}
