/**
  Which node each pod of test_multi_pod_with_vol.go is pinned to: the ready-node filter
  and the round-robin over its result, shared by `RunSync` and `RunAsync`.
 */
module Placement {
  import opened Wrappers

  datatype Condition = Condition(kind: string, status: string)

  datatype Node = Node(name: string, unschedulable: bool, conditions: seq<Condition>)

  predicate IsReady(c: Condition) {
    c.kind == "Ready" && c.status == "True"
  }

  function ReadyCount(conditions: seq<Condition>): nat {
    if conditions == [] then 0
    else ReadyCount(conditions[..|conditions| - 1]) + if IsReady(conditions[|conditions| - 1]) then 1 else 0
  }

  /** Schedulable, with a Ready condition that is True. */
  predicate Eligible(node: Node) {
    !node.unschedulable && exists c | c in node.conditions :: IsReady(c)
  }

  /** The names of the eligible nodes, in list order. */
  function EligibleNames(nodes: seq<Node>): seq<string> {
    if nodes == [] then []
    else
      var last := nodes[|nodes| - 1];
      EligibleNames(nodes[..|nodes| - 1]) + if Eligible(last) then [last.name] else []
  }

  /** What the loops collect: a node's name once for each Ready condition that is True. */
  function Collected(nodes: seq<Node>): seq<string> {
    if nodes == [] then []
    else
      var last := nodes[|nodes| - 1];
      Collected(nodes[..|nodes| - 1]) +
      if last.unschedulable then [] else seq(ReadyCount(last.conditions), i => last.name)
  }

  lemma {:induction false} ReadyCountPositive(conditions: seq<Condition>)
    ensures ReadyCount(conditions) > 0 <==> exists c | c in conditions :: IsReady(c)
  {
    if conditions != [] {
      var last := conditions[|conditions| - 1];
      ReadyCountPositive(conditions[..|conditions| - 1]);
      assert conditions == conditions[..|conditions| - 1] + [last];
    }
  }

  /**
    Repeated or not, the names collected are those of the nodes that can be scheduled and
    report the condition Ready as True, and of no others.
   */
  lemma {:induction false} CollectedAre(nodes: seq<Node>, name: string)
    ensures name in Collected(nodes) <==>
      exists node | node in nodes ::
        node.name == name && !node.unschedulable &&
        exists c | c in node.conditions :: c.kind == "Ready" && c.status == "True"
  {
    if nodes != [] {
      var front, last := nodes[..|nodes| - 1], nodes[|nodes| - 1];
      assert nodes == front + [last];
      CollectedAre(front, name);
      ReadyCountPositive(last.conditions);
      if Eligible(last) { assert seq(ReadyCount(last.conditions), i => last.name)[0] == last.name; }
    }
  }

  /** `None` is a failed node list. */
  method CollectNodes(nodes: Option<seq<Node>>) returns (nodeName: seq<string>)
    ensures nodeName == if nodes.None? then [] else Collected(nodes.value)
    ensures nodes.Some? ==> forall name :: name in nodeName <==>
      exists node | node in nodes.value ::
        node.name == name && !node.unschedulable &&
        exists c | c in node.conditions :: c.kind == "Ready" && c.status == "True"
  {
    nodeName := [];
    if nodes.Some? {
      var items := nodes.value;
      for i := 0 to |items|
        invariant nodeName == Collected(items[..i])
      {
        var node := items[i];
        assert items[..i + 1][..i] == items[..i];
        if !node.unschedulable {
          ghost var before := nodeName;
          for j := 0 to |node.conditions|
            invariant nodeName == before + seq(ReadyCount(node.conditions[..j]), _ => node.name)
          {
            assert node.conditions[..j + 1][..j] == node.conditions[..j];
            if IsReady(node.conditions[j]) {
              nodeName := nodeName + [node.name];
            }
          }
          assert node.conditions[..|node.conditions|] == node.conditions;
        }
      }
      assert items[..|items|] == items;
      forall name {
        CollectedAre(items, name);
      }
    }
  }

  /** The node is not listed twice. */
  predicate SingleReady(node: Node) {
    node.unschedulable || ReadyCount(node.conditions) <= 1
  }

  /**
    The loops collect exactly the eligible nodes, each once and in list order, if and only
    if no schedulable node reports Ready as True more than once.
   */
  lemma {:induction false} CollectsEligible(nodes: seq<Node>)
    ensures |EligibleNames(nodes)| <= |Collected(nodes)|
    ensures |EligibleNames(nodes)| == |Collected(nodes)| ==> EligibleNames(nodes) == Collected(nodes)
    ensures Collected(nodes) == EligibleNames(nodes) <==> forall node | node in nodes :: SingleReady(node)
  {
    if nodes != [] {
      var front, last := nodes[..|nodes| - 1], nodes[|nodes| - 1];
      assert nodes == front + [last];
      CollectsEligible(front);
      ReadyCountPositive(last.conditions);
      if SingleReady(last) {
        assert (if last.unschedulable then [] else seq(ReadyCount(last.conditions), i => last.name)) ==
          if Eligible(last) then [last.name] else [];
      }
    }
  }

  /** Condition types are unique in a node, as Kubernetes keeps them. */
  predicate UniqueTypes(node: Node) {
    forall i, j | 0 <= i < j < |node.conditions| :: node.conditions[i].kind != node.conditions[j].kind
  }

  lemma {:induction false} UniqueTypesSingle(conditions: seq<Condition>)
    requires forall i, j | 0 <= i < j < |conditions| :: conditions[i].kind != conditions[j].kind
    ensures ReadyCount(conditions) <= 1
  {
    if conditions != [] {
      var front, last := conditions[..|conditions| - 1], conditions[|conditions| - 1];
      UniqueTypesSingle(front);
      ReadyCountPositive(front);
      assert conditions == front + [last];
    }
  }

  lemma UniqueTypesCollect(nodes: seq<Node>)
    requires forall node | node in nodes :: UniqueTypes(node)
    ensures Collected(nodes) == EligibleNames(nodes)
  {
    forall node | node in nodes ensures SingleReady(node) {
      UniqueTypesSingle(node.conditions);
    }
    CollectsEligible(nodes);
  }

  // ---------- round robin ----------

  /** The node selector given to pod `k`, if any. */
  function HostOf(nodeName: seq<string>, k: nat): Option<string> {
    if |nodeName| > 1 then Some(nodeName[k % |nodeName|]) else None
  }

  lemma ModuloStep(k: nat, m: nat)
    requires m > 0
    ensures k % m + 1 < m ==> (k + 1) % m == k % m + 1 && (k + 1) / m == k / m
    ensures k % m + 1 == m ==> (k + 1) % m == 0 && (k + 1) / m == k / m + 1
  {
    var q, r := k / m, k % m;
    assert k == q * m + r;
    if r + 1 == m {
      assert k + 1 == (q + 1) * m by { assert (q + 1) * m == q * m + m; }
      DivisionIs(k + 1, m, q + 1, 0);
    } else {
      DivisionIs(k + 1, m, q, r + 1);
    }
  }

  lemma DivisionIs(n: nat, m: nat, q: nat, r: nat)
    requires m > 0 && n == q * m + r && r < m
    ensures n / m == q && n % m == r
  {
    var d := n / m - q;
    assert n == (n / m) * m + n % m;
    assert d * m == (n / m) * m - q * m;
    assert d >= 1 ==> d * m >= m;
    assert d <= -1 ==> d * m + m <= 0;
  }

  /** The index after pod `k`, before it wraps. */
  function IndexAfter(k: nat, m: nat): nat
    requires m > 0
  {
    if k == 0 then 0 else (k - 1) % m + 1
  }

  lemma WrapsToModulo(k: nat, m: nat)
    requires m > 0
    ensures (if IndexAfter(k, m) >= m then 0 else IndexAfter(k, m)) == k % m < m
  {
    if k > 0 { ModuloStep(k - 1, m); }
  }

  /** The wrap-around index pins pod `k` to eligible node `k` modulo their number. */
  method Place(pods: nat, nodeName: seq<string>) returns (hosts: seq<Option<string>>)
    ensures |hosts| == pods && forall k | 0 <= k < pods :: hosts[k] == HostOf(nodeName, k)
    ensures |nodeName| > 1 ==> forall k | 0 <= k < pods :: hosts[k] == Some(nodeName[k % |nodeName|])
    ensures |nodeName| <= 1 ==> forall k | 0 <= k < pods :: hosts[k] == None
  {
    var maxCount := |nodeName|;
    var ix := 0;
    hosts := [];
    for k := 0 to pods
      invariant |hosts| == k && forall j | 0 <= j < k :: hosts[j] == HostOf(nodeName, j)
      invariant maxCount > 1 ==> ix == IndexAfter(k, maxCount)
    {
      if maxCount > 1 {
        WrapsToModulo(k, maxCount);
        if ix >= maxCount {
          ix := 0;
        }
        assert Some(nodeName[ix]) == HostOf(nodeName, k);
        hosts := hosts + [Some(nodeName[ix])];
        ix := ix + 1;
      } else {
        hosts := hosts + [None];
      }
    }
  }

  /** How many of the pods are pinned to the node. */
  function Load(hosts: seq<Option<string>>, name: string): nat {
    if hosts == [] then 0
    else Load(hosts[..|hosts| - 1], name) + if hosts[|hosts| - 1] == Some(name) then 1 else 0
  }

  predicate Distinct(names: seq<string>) {
    forall i, j | 0 <= i < j < |names| :: names[i] != names[j]
  }

  /** The part of `n` pods that falls to eligible node `a` of `m`. */
  function Share(n: nat, m: nat, a: nat): nat
    requires m > 0
  {
    n / m + if a < n % m then 1 else 0
  }

  lemma ShareNext(n: nat, m: nat, a: nat)
    requires a < m
    ensures Share(n + 1, m, a) == Share(n, m, a) + if n % m == a then 1 else 0
  {
    ModuloStep(n, m);
  }

  lemma HostIs(nodeName: seq<string>, k: nat, a: nat)
    requires |nodeName| > 1 && Distinct(nodeName) && a < |nodeName|
    ensures HostOf(nodeName, k) == Some(nodeName[a]) <==> k % |nodeName| == a
  {
  }

  lemma {:induction false} LoadIs(hosts: seq<Option<string>>, nodeName: seq<string>, a: nat)
    requires |nodeName| > 1 && Distinct(nodeName) && a < |nodeName|
    requires forall k | 0 <= k < |hosts| :: hosts[k] == HostOf(nodeName, k)
    ensures Load(hosts, nodeName[a]) == Share(|hosts|, |nodeName|, a)
    ensures Load(hosts, nodeName[a]) == |hosts| / |nodeName| + if a < |hosts| % |nodeName| then 1 else 0
  {
    if hosts != [] {
      LoadIs(hosts[..|hosts| - 1], nodeName, a);
      ShareNext(|hosts| - 1, |nodeName|, a);
      HostIs(nodeName, |hosts| - 1, a);
    }
  }

  /** After every prefix of the pods the loads of any two nodes differ by at most one. */
  lemma LoadsAreBalanced(hosts: seq<Option<string>>, nodeName: seq<string>, n: nat, a: nat, b: nat)
    requires |nodeName| > 1 && Distinct(nodeName) && a < |nodeName| && b < |nodeName| && n <= |hosts|
    requires forall k | 0 <= k < |hosts| :: hosts[k] == HostOf(nodeName, k)
    ensures Load(hosts[..n], nodeName[a]) <= Load(hosts[..n], nodeName[b]) + 1
  {
    LoadIs(hosts[..n], nodeName, a);
    LoadIs(hosts[..n], nodeName, b);
  }

  // ---------- from the node list to the loads ----------

  lemma {:induction false} EligibleNamesAre(nodes: seq<Node>, name: string)
    ensures name in EligibleNames(nodes) <==> exists node | node in nodes :: Eligible(node) && node.name == name
  {
    if nodes != [] {
      var front, last := nodes[..|nodes| - 1], nodes[|nodes| - 1];
      assert nodes == front + [last];
      EligibleNamesAre(front, name);
    }
  }

  lemma {:induction false} EligibleNamesDistinct(nodes: seq<Node>)
    requires forall i, j | 0 <= i < j < |nodes| :: nodes[i].name != nodes[j].name
    ensures Distinct(EligibleNames(nodes))
  {
    if nodes != [] {
      var front, last := nodes[..|nodes| - 1], nodes[|nodes| - 1];
      EligibleNamesDistinct(front);
      EligibleNamesAre(front, last.name);
    }
  }

  /** A healthy listing: no name twice, and in each node no condition type twice. */
  ghost predicate WellFormed(nodes: seq<Node>) {
    && (forall i, j | 0 <= i < j < |nodes| :: nodes[i].name != nodes[j].name)
    && (forall node | node in nodes :: UniqueTypes(node))
  }

  /** The loads of the eligible nodes under the first `n` pods are within one of each other. */
  ghost predicate Balanced(nodes: seq<Node>, hosts: seq<Option<string>>, n: nat)
    requires n <= |hosts|
  {
    forall x, y | x in nodes && y in nodes && Eligible(x) && Eligible(y) ::
      Load(hosts[..n], x.name) <= Load(hosts[..n], y.name) + 1
  }

  lemma {:induction false} NothingPinned(hosts: seq<Option<string>>, name: string)
    requires forall k | 0 <= k < |hosts| :: hosts[k] == None
    ensures Load(hosts, name) == 0
  {
    if hosts != [] { NothingPinned(hosts[..|hosts| - 1], name); }
  }

  lemma PrefixBalanced(nodes: seq<Node>, hosts: seq<Option<string>>, n: nat)
    requires n <= |hosts| && forall i, j | 0 <= i < j < |nodes| :: nodes[i].name != nodes[j].name
    requires forall k | 0 <= k < |hosts| :: hosts[k] == HostOf(EligibleNames(nodes), k)
    ensures forall x, y | x in nodes && y in nodes && Eligible(x) && Eligible(y) ::
      Load(hosts[..n], x.name) <= Load(hosts[..n], y.name) + 1
  {
    var names := EligibleNames(nodes);
    EligibleNamesDistinct(nodes);
    forall x, y | x in nodes && y in nodes && Eligible(x) && Eligible(y)
      ensures Load(hosts[..n], x.name) <= Load(hosts[..n], y.name) + 1
    {
      EligibleNamesAre(nodes, x.name);
      EligibleNamesAre(nodes, y.name);
      if |names| > 1 {
        var a: nat :| a < |names| && names[a] == x.name;
        var b: nat :| b < |names| && names[b] == y.name;
        LoadsAreBalanced(hosts, names, n, a, b);
      } else {
        NothingPinned(hosts[..n], x.name);
      }
    }
  }

  /**
    The suite from its node list to its pods.  Every pod is pinned, to an eligible node, or
    none is; in a healthy listing the loads of the eligible nodes stay within one of each
    other throughout.
   */
  method PinPods(nodes: Option<seq<Node>>, pods: nat) returns (hosts: seq<Option<string>>)
    ensures |hosts| == pods
    ensures nodes.Some? && WellFormed(nodes.value) ==> forall n: nat | n <= pods :: Balanced(nodes.value, hosts, n)
    ensures (forall k | 0 <= k < pods :: hosts[k] == None) || (nodes.Some? && forall k | 0 <= k < pods ::
      hosts[k].Some? && exists node | node in nodes.value :: Eligible(node) && node.name == hosts[k].value)
    ensures nodes.None? ==> forall k | 0 <= k < pods :: hosts[k] == None
  {
    var nodeName := CollectNodes(nodes);
    hosts := Place(pods, nodeName);
    if nodes.Some? && WellFormed(nodes.value) {
      UniqueTypesCollect(nodes.value);
      forall n: nat | n <= pods ensures Balanced(nodes.value, hosts, n) {
        PrefixBalanced(nodes.value, hosts, n);
      }
    }
    forall k | 0 <= k < pods && hosts[k].Some?
      ensures exists node | node in nodes.value :: Eligible(node) && node.name == hosts[k].value
    {
      CollectedAre(nodes.value, hosts[k].value);
    }
  }

  /** Nodes that are not ready, or not schedulable, get no pod pinned to them, whatever else is listed. */
  lemma NotReadyNotPinned(nodes: seq<Node>, hosts: seq<Option<string>>, name: string)
    requires forall node | node in nodes && node.name == name ::
      node.unschedulable || forall c | c in node.conditions :: c.kind == "Ready" ==> c.status != "True"
    requires forall k | 0 <= k < |hosts| :: hosts[k] == HostOf(Collected(nodes), k)
    ensures Load(hosts, name) == 0
  {
    CollectedAre(nodes, name);
    NeverPinned(hosts, Collected(nodes), name);
  }

  lemma {:induction false} NeverPinned(hosts: seq<Option<string>>, nodeName: seq<string>, name: string)
    requires name !in nodeName
    requires forall k | 0 <= k < |hosts| :: hosts[k] == HostOf(nodeName, k)
    ensures Load(hosts, name) == 0
  {
    if hosts != [] { NeverPinned(hosts[..|hosts| - 1], nodeName, name); }
  }
}
