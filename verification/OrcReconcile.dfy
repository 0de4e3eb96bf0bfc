/** The reconcile pass between a cluster and Orchestrator, as methods on the cluster status and the
    Orchestrator client. */
module OrcReconcile {
  import opened Common
  import opened Names
  import opened Topology
  import opened ClusterStatus
  import opened Registration
  import opened NodeReports
  import opened WriteGate

  const RECOVERY_GRACE_TIME := 600
  const FORGET_GRACE_TIME := 30

  /** `started` is None when the start time of the recovery cannot be parsed. */
  datatype Recovery = Recovery(id: int, acknowledged: bool, started: Option<int>)

  /** What Orchestrator answers to a query. */
  datatype Reply<+T> = Answer(value: T) | NotFound | Unreachable

  /** Orchestrator: the calls made so far, in order, whether each succeeded, and the read-only flags of the hosts.
      Any call may fail; a failed call changes nothing. */
  class Orchestrator {
    var calls: seq<Call>
    var results: seq<bool>
    var readOnly: map<InstanceKey, bool>

    constructor (readOnly: map<InstanceKey, bool>)
      ensures calls == [] && results == [] && this.readOnly == readOnly
    {
      calls, results, this.readOnly := [], [], readOnly;
    }

    method Send(c: Call) returns (ok: bool)
      modifies this
      ensures calls == old(calls) + [c] && results == old(results) + [ok]
      ensures readOnly == if ok then AfterCall(old(readOnly), c) else old(readOnly)
    {
      calls := calls + [c];
      ok := *;
      results := results + [ok];
      if ok { readOnly := AfterCall(readOnly, c); }
    }
  }

  /** One result has been added for each call added. */
  predicate Answered(calls: seq<Call>, results: seq<bool>, calls': seq<Call>, results': seq<bool>) {
    results <= results' && |results'| - |results| == |calls'| - |calls|
  }

  /** Of `n` calls to make in order, `made` were made, with these results, up to the first failure. */
  predicate UpToFirstFailure(results: seq<bool>, made: nat, n: nat) {
    && made <= n && |results| == made
    && (forall i :: 0 <= i < made - 1 ==> results[i])
    && (made < n ==> made > 0 && !results[made - 1])
  }

  /** The calls sent so far, and the flags they left if none failed. */
  ghost predicate GateProgress(calls: seq<Call>, readOnly: map<InstanceKey, bool>, sent: seq<Call>,
                               flags: map<InstanceKey, bool>,
                               insts: seq<Instance>, master: Option<Instance>, specReadOnly: bool, errors: nat) {
    var gate := GateCalls(false, insts, master, specReadOnly);
    calls == sent + gate && (errors == 0 ==> readOnly == AfterCalls(flags, gate))
  }

  lemma GateProgressStep(calls: seq<Call>, readOnly: map<InstanceKey, bool>, calls': seq<Call>,
                         readOnly': map<InstanceKey, bool>,
                         sent: seq<Call>, flags: map<InstanceKey, bool>,
                         insts: seq<Instance>, k: nat, master: Option<Instance>, specReadOnly: bool, errors: nat,
                         ok: bool)
    requires k < |insts| && GateProgress(calls, readOnly, sent, flags, insts[..k], master, specReadOnly, errors)
    requires var call := GateCallFor(insts[k], master, specReadOnly);
             calls' == calls + call && (ok ==> readOnly' == AfterCalls(readOnly, call))
    ensures GateProgress(calls', readOnly', sent, flags, insts[..k + 1], master, specReadOnly,
                         if ok then errors else errors + 1)
  {
    GateCallsSnoc(flags, insts, k, master, specReadOnly);
    Onward(sent, GateCalls(false, insts[..k], master, specReadOnly), GateCallFor(insts[k], master, specReadOnly),
           GateCalls(false, insts[..k + 1], master, specReadOnly), calls, calls');
  }

  lemma Onward(sent: seq<Call>, before: seq<Call>, call: seq<Call>, after: seq<Call>, calls: seq<Call>,
               calls': seq<Call>)
    requires after == before + call && calls == sent + before && calls' == calls + call
    ensures calls' == sent + after
  {
  }

  /* ---- specification of a pass ---- */

  /** The master a pass works with: the one Orchestrator names, else the one the topology determines,
      and none when the two name different hosts. */
  function ChosenMaster(named: Option<Instance>, insts: seq<Instance>): Option<Instance> {
    var determined := MasterOf(insts);
    if named.None? then determined
    else if determined.Some? && named.value.key.hostname != determined.value.key.hostname then None
    else named
  }

  function ForgetCalls(keys: seq<InstanceKey>): (r: seq<Call>)
    ensures |r| == |keys|
  {
    seq(|keys|, i requires 0 <= i < |keys| => Forget(keys[i]))
  }

  function DiscoverCalls(keys: seq<InstanceKey>): (r: seq<Call>)
    ensures |r| == |keys|
  {
    seq(|keys|, i requires 0 <= i < |keys| => Discover(keys[i]))
  }

  function AckCalls(recoveries: seq<Recovery>): (r: seq<Call>)
    ensures |r| == |recoveries|
  {
    seq(|recoveries|, i requires 0 <= i < |recoveries| => AckRecovery(recoveries[i].id))
  }

  /** A recovery that may be acknowledged at time `now`. */
  predicate OldEnough(r: Recovery, now: int) {
    !r.acknowledged && r.started.Some? && now - r.started.value >= RECOVERY_GRACE_TIME
  }

  function ToAck(recoveries: seq<Recovery>, conds: seq<Condition<ClusterConditionType>>, now: int): seq<Recovery> {
    if ReadyFor(conds, now, RECOVERY_GRACE_TIME) then Filter((r: Recovery) => OldEnough(r, now), recoveries) else []
  }

  predicate PodIs(nodes: seq<NodeStatus>, name: string, namespace: string, i: nat, kind: NodeConditionType) {
    NodeCond(nodes, PodHostname(name, namespace, i), kind) == Some(True)
  }

  /** The pod is master or replicates. */
  predicate PodWorks(nodes: seq<NodeStatus>, name: string, namespace: string, i: nat) {
    PodIs(nodes, name, namespace, i, Master) || PodIs(nodes, name, namespace, i, Replicating)
  }

  ghost predicate SomePodIsMaster(nodes: seq<NodeStatus>, name: string, namespace: string, n: nat) {
    exists i: nat :: i < n && PodIs(nodes, name, namespace, i, Master)
  }

  ghost predicate AllPodsWork(nodes: seq<NodeStatus>, name: string, namespace: string, n: nat) {
    forall i: nat :: i < n ==> PodWorks(nodes, name, namespace, i)
  }

  lemma OnePodMore(nodes: seq<NodeStatus>, name: string, namespace: string, n: nat)
    ensures SomePodIsMaster(nodes, name, namespace, n + 1) <==>
            SomePodIsMaster(nodes, name, namespace, n) || PodIs(nodes, name, namespace, n, Master)
    ensures AllPodsWork(nodes, name, namespace, n + 1) <==>
            AllPodsWork(nodes, name, namespace, n) && PodWorks(nodes, name, namespace, n)
  {
  }

  /** The cluster is ready: all replicas are, each pod is master or replicates, and there is a master
      unless the cluster is read-only or empty. */
  ghost predicate ClusterIsReady(nodes: seq<NodeStatus>, name: string, namespace: string, replicas: nat,
                                 readyNodes: int, readOnly: bool) {
    && readyNodes == replicas
    && AllPodsWork(nodes, name, namespace, replicas)
    && (SomePodIsMaster(nodes, name, namespace, replicas) || readOnly || replicas == 0)
  }

  lemma NotWorkingStaysSo(nodes: seq<NodeStatus>, name: string, namespace: string, i: nat, n: nat)
    requires i < n && !PodWorks(nodes, name, namespace, i)
    ensures !AllPodsWork(nodes, name, namespace, n)
  {
  }

  /** The node list with entries for the pods below `k`. */
  function WithPods(nodes: seq<NodeStatus>, name: string, namespace: string, k: nat): seq<NodeStatus> {
    if k == 0 then nodes else WithNode(WithPods(nodes, name, namespace, k - 1), PodHostname(name, namespace, k - 1))
  }

  lemma {:induction false} WithPodsKeeps(nodes: seq<NodeStatus>, name: string, namespace: string, k: nat,
                                         host: string, kind: NodeConditionType)
    ensures NodeCond(WithPods(nodes, name, namespace, k), host, kind) == NodeCond(nodes, host, kind)
    ensures WellFormed(nodes) ==> WellFormed(WithPods(nodes, name, namespace, k))
  {
    if k > 0 {
      WithPodsKeeps(nodes, name, namespace, k - 1, host, kind);
      WithNodeKeeps(WithPods(nodes, name, namespace, k - 1), PodHostname(name, namespace, k - 1), host, kind);
    }
  }

  predicate MasterIsHealthy(master: Option<Instance>) {
    master.Some? && master.value.lastSeen.Some? && master.value.lastSeen.value < 5
  }

  /** The cluster conditions after a pass. */
  function ConditionsAfterPass(conds: seq<Condition<ClusterConditionType>>, insts: seq<Instance>,
                               master: Option<Instance>,
                               ready: bool, recoveries: seq<Recovery>, now: int): seq<Condition<ClusterConditionType>> {
    var c1 := if MasterIsHealthy(master) then SetCondition(conds, FailoverInProgress, False, now) else conds;
    var c2 := SetCondition(c1, ClusterReadOnly, BoolStatus(forall x :: x in insts ==> x.readOnly), now);
    var c3 := SetCondition(c2, Ready, BoolStatus(ready), now);
    SetCondition(c3, FailoverAck, BoolStatus(exists r :: r in recoveries && !r.acknowledged), now)
  }

  /** A write to another condition leaves Ready alone. */
  lemma OtherWrite(conds: seq<Condition<ClusterConditionType>>, kind: ClusterConditionType, status: ConditionStatus,
                   now: int)
    requires kind != Ready
    ensures Find(SetCondition(conds, kind, status, now), Ready) == Find(conds, Ready)
    ensures DistinctKinds(conds) ==> DistinctKinds(SetCondition(conds, kind, status, now))
  {
    SetThenFind(conds, kind, status, now, Ready);
  }

  /** What a write to Ready stores depends on the Ready condition alone. */
  lemma ReadyWrite(a: seq<Condition<ClusterConditionType>>, b: seq<Condition<ClusterConditionType>>,
                   status: ConditionStatus, now: int)
    requires Find(a, Ready) == Find(b, Ready)
    ensures Find(SetCondition(a, Ready, status, now), Ready) == Find(SetCondition(b, Ready, status, now), Ready)
    ensures DistinctKinds(a) ==> DistinctKinds(SetCondition(a, Ready, status, now))
  {
    SetThenFind(a, Ready, status, now, Ready);
    SetThenFind(b, Ready, status, now, Ready);
  }

  /** The Ready condition after a pass is the one written by the pass. */
  lemma ReadyAfterPass(conds: seq<Condition<ClusterConditionType>>, insts: seq<Instance>, master: Option<Instance>,
                       ready: bool, recoveries: seq<Recovery>, now: int)
    ensures Find(ConditionsAfterPass(conds, insts, master, ready, recoveries, now), Ready)
            == Find(SetCondition(conds, Ready, BoolStatus(ready), now), Ready)
    ensures DistinctKinds(conds) ==> DistinctKinds(ConditionsAfterPass(conds, insts, master, ready, recoveries, now))
  {
    hide SetCondition, Find, DistinctKinds;
    var c1 := if MasterIsHealthy(master) then SetCondition(conds, FailoverInProgress, False, now) else conds;
    OtherWrite(conds, FailoverInProgress, False, now);
    var ro := BoolStatus(forall x :: x in insts ==> x.readOnly);
    OtherWrite(c1, ClusterReadOnly, ro, now);
    var c2 := SetCondition(c1, ClusterReadOnly, ro, now);
    ReadyWrite(c2, conds, BoolStatus(ready), now);
    var c3 := SetCondition(c2, Ready, BoolStatus(ready), now);
    OtherWrite(c3, FailoverAck, BoolStatus(exists r :: r in recoveries && !r.acknowledged), now);
  }

  /** When the acknowledgements stopped early, the last call is one that failed. */
  lemma NoFailureNoStop(results: seq<bool>, acked: nat, n: nat)
    requires acked <= |results| && UpToFirstFailure(results[|results| - acked..], acked, n)
    ensures acked < n ==> results != [] && !results[|results| - 1] && acked > 0
  {
  }

  lemma AnsweredOnward(c0: seq<Call>, r0: seq<bool>, c1: seq<Call>, r1: seq<bool>, c2: seq<Call>, r2: seq<bool>)
    requires Answered(c0, r0, c1, r1) && Answered(c1, r1, c2, r2)
    ensures Answered(c0, r0, c2, r2)
  {
  }

  /** Results that are all successes stay so under a later look at them. */
  lemma AllOkBefore(r0: seq<bool>, r1: seq<bool>, r2: seq<bool>, r3: seq<bool>)
    requires r0 <= r1 <= r2 <= r3 && forall i :: |r0| <= i < |r3| ==> r3[i]
    ensures forall i :: |r1| <= i < |r2| ==> r2[i]
  {
  }

  /** The calls of a pass: to discover, those of the write gate, to forget, and the first `acked` acknowledgements. */
  function CallsOfPass(name: string, namespace: string, replicas: nat, readyNodes: int, deleted: bool,
                       insts: seq<Instance>, gate: seq<Call>, conds: seq<Condition<ClusterConditionType>>,
                       recoveries: seq<Recovery>, now: int, acked: nat): seq<Call>
    requires acked <= |ToAck(recoveries, conds, now)|
  {
    DiscoverCalls(if deleted then [] else ToDiscover(name, namespace, replicas, readyNodes, insts))
    + gate
    + (if deleted || ReadyFor(conds, now, FORGET_GRACE_TIME)
       then ForgetCalls(if deleted then KeysOf(insts)
                        else ToForget(insts, ReadyInstances(name, namespace, replicas, insts)))
       else [])
    + AckCalls(ToAck(recoveries, conds, now)[..acked])
  }

  /** The calls of a pass one group after the other. */
  lemma CallsAssembled(sent: seq<Call>, name: string, namespace: string, replicas: nat, readyNodes: int, deleted: bool,
                       insts: seq<Instance>, gate: seq<Call>, conds: seq<Condition<ClusterConditionType>>,
                       recoveries: seq<Recovery>, now: int, acked: nat)
    requires acked <= |ToAck(recoveries, conds, now)|
    ensures var discover := DiscoverCalls(if deleted then []
                                          else ToDiscover(name, namespace, replicas, readyNodes, insts));
            var forget := if deleted || ReadyFor(conds, now, FORGET_GRACE_TIME)
                          then ForgetCalls(if deleted then KeysOf(insts)
                                           else ToForget(insts, ReadyInstances(name, namespace, replicas, insts)))
                          else [];
            sent + discover + gate + forget + AckCalls(ToAck(recoveries, conds, now)[..acked])
            == sent + CallsOfPass(name, namespace, replicas, readyNodes, deleted, insts, gate, conds, recoveries, now,
                                  acked)
  {
    hide ReadyInstances, ToDiscover, ToForget, KeysOf, ReadyFor, ToAck, DiscoverCalls, ForgetCalls, AckCalls;
  }

  /** When no call failed, none of the gate did, and no acknowledgement was left out. */
  lemma AllOk(c0: seq<Call>, r0: seq<bool>, c1: seq<Call>, r1: seq<bool>, c2: seq<Call>, r2: seq<bool>,
              c3: seq<Call>, r3: seq<bool>, acked: nat, n: nat)
    requires Answered(c0, r0, c1, r1) && Answered(c1, r1, c2, r2) && Answered(c2, r2, c3, r3)
    requires |c2| + acked <= |c3| && |c0| <= |c2| && acked <= |r3| && UpToFirstFailure(r3[|r3| - acked..], acked, n)
    requires forall i :: |r0| <= i < |r3| ==> r3[i]
    ensures (forall i :: |r1| <= i < |r2| ==> r2[i]) && acked == n
  {
    AllOkBefore(r0, r1, r2, r3);
    NoFailureNoStop(r3, acked, n);
  }

  /* ---- the pass ---- */

  class OrcUpdater {
    const cluster: MysqlCluster
    const client: Orchestrator

    constructor (cluster: MysqlCluster, client: Orchestrator)
      ensures this.cluster == cluster && this.client == client
    {
      this.cluster, this.client := cluster, client;
    }

    method GetFromOrchestrator(instances: Reply<seq<Instance>>, named: Reply<Instance>)
      returns (ok: bool, insts: seq<Instance>, master: Option<Instance>)
      ensures ok <==> !instances.Unreachable? && (instances.Answer? ==> !named.Unreachable?)
      ensures ok ==> insts == (if instances.Answer? then instances.value else [])
      ensures ok ==> master == if instances.Answer?
              then ChosenMaster(if named.Answer? then Some(named.value) else None, insts)
                               else None
    {
      insts, master := [], None;
      if instances.Unreachable? { return false, insts, master; }
      if instances.NotFound? { return true, insts, master; }
      insts := instances.value;
      if named.Unreachable? { return false, insts, master; }
      var m := DetermineMaster(insts);
      if named.Answer? {
        if m.Some? && named.value.key.hostname != m.value.key.hostname { return true, insts, None; }
        return true, insts, Some(named.value);
      }
      return true, insts, m;
    }

    method EveryKey(insts: seq<Instance>) returns (keys: seq<InstanceKey>)
      ensures keys == KeysOf(insts)
    {
      keys := [];
      for k := 0 to |insts|
        invariant keys == KeysOf(insts)[..k]
      {
        keys := keys + [insts[k].key];
      }
    }

    /** The registered instances that no desired pod claims. */
    method UnclaimedInOrc(insts: seq<Instance>, ready: seq<Instance>) returns (forget: seq<InstanceKey>)
      ensures forget == ToForget(insts, ready)
    {
      forget := [];
      for k := 0 to |insts|
        invariant forget == ToForget(insts[..k], ready)
      {
        assert insts[..k + 1][..k] == insts[..k];
        if GetInstance(ready, insts[k].key.hostname).None? {
          forget := forget + [insts[k].key];
        }
      }
      assert insts[..|insts|] == insts;
    }

    method UpdateNodesInOrc(insts: seq<Instance>)
      returns (ready: seq<Instance>, discover: seq<InstanceKey>, forget: seq<InstanceKey>)
      ensures ready == ReadyInstances(cluster.name, cluster.namespace, cluster.replicas, insts)
      ensures discover == if cluster.deleted then []
                          else ToDiscover(cluster.name, cluster.namespace, cluster.replicas, cluster.readyNodes, insts)
      ensures forget == if cluster.deleted then KeysOf(insts) else ToForget(insts, ready)
    {
      ready, discover, forget := [], [], [];
      for i := 0 to cluster.replicas
        invariant ready == ReadyInstances(cluster.name, cluster.namespace, i, insts)
        invariant discover == ToDiscover(cluster.name, cluster.namespace, i, cluster.readyNodes, insts)
      {
        var host := cluster.GetPodHostname(i);
        var inst := GetInstance(insts, host);
        if inst.None? {
          if i < cluster.readyNodes {
            discover := discover + [InstanceKey(host, MYSQL_PORT)];
          }
        } else {
          ready := ready + [inst.value];
        }
      }
      forget := UnclaimedInOrc(insts, ready);
      if !cluster.deleted { return; }
      var toRemove := EveryKey(insts);
      return ready, [], toRemove;
    }

    method DiscoverNodesInOrc(keys: seq<InstanceKey>)
      modifies client
      ensures client.calls == old(client.calls) + DiscoverCalls(keys)
      ensures client.readOnly == old(client.readOnly)
      ensures Answered(old(client.calls), old(client.results), client.calls, client.results)
    {
      for k := 0 to |keys|
        invariant client.calls == old(client.calls) + DiscoverCalls(keys)[..k]
        invariant Answered(old(client.calls), old(client.results), client.calls, client.results)
        invariant client.readOnly == old(client.readOnly)
      {
        var _ := client.Send(Discover(keys[k]));
      }
    }

    method ForgetNodesFromOrc(keys: seq<InstanceKey>, now: int)
      modifies client
      ensures client.calls == old(client.calls)
                              + if cluster.deleted || ReadyFor(cluster.conditions, now, FORGET_GRACE_TIME)
                                then ForgetCalls(keys) else []
      ensures client.readOnly == old(client.readOnly)
      ensures Answered(old(client.calls), old(client.results), client.calls, client.results)
    {
      var ready := cluster.GetClusterCondition(Ready);
      if (ready.Some? && ready.value.status == True && now - ready.value.lastTransition > FORGET_GRACE_TIME)
         || cluster.deleted
      {
        for k := 0 to |keys|
          invariant client.calls == old(client.calls) + ForgetCalls(keys)[..k]
          invariant client.readOnly == old(client.readOnly)
          invariant Answered(old(client.calls), old(client.results), client.calls, client.results)
        {
          var _ := client.Send(Forget(keys[k]));
        }
      }
    }

    method GetRecoveriesToAck(recoveries: seq<Recovery>, now: int) returns (toAck: seq<Recovery>)
      ensures toAck == ToAck(recoveries, cluster.conditions, now)
    {
      toAck := [];
      if |recoveries| == 0 { return; }
      var ready := cluster.GetClusterCondition(Ready);
      if !(ready.Some? && ready.value.status == True
           && now - ready.value.lastTransition > RECOVERY_GRACE_TIME) { return; }
      for k := 0 to |recoveries|
        invariant toAck == Filter((r: Recovery) => OldEnough(r, now), recoveries[..k])
      {
        var r := recoveries[k];
        assert recoveries[..k + 1] == recoveries[..k] + [r];
        FilterSnoc((x: Recovery) => OldEnough(x, now), recoveries[..k], r);
        if !r.acknowledged {
          if r.started.None? { continue; }
          if now - r.started.value < RECOVERY_GRACE_TIME { continue; }
          toAck := toAck + [r];
        }
      }
      assert recoveries[..|recoveries|] == recoveries;
    }

    /** Acknowledges in order and stops at the first failure; `sent` counts the calls made. */
    method AcknowledgeRecoveries(toAck: seq<Recovery>) returns (ok: bool, sent: nat)
      modifies client
      ensures sent <= |toAck| && client.calls == old(client.calls) + AckCalls(toAck[..sent])
      ensures old(client.results) <= client.results && client.readOnly == old(client.readOnly)
      ensures UpToFirstFailure(client.results[|old(client.results)|..], sent, |toAck|)
      ensures ok <==> forall i :: |old(client.results)| <= i < |client.results| ==> client.results[i]
    {
      sent := 0;
      ghost var before := client.results;
      while sent < |toAck|
        invariant sent <= |toAck| && client.calls == old(client.calls) + AckCalls(toAck[..sent])
        invariant before <= client.results && |client.results| == |before| + sent
        invariant client.readOnly == old(client.readOnly)
        invariant forall i :: |before| <= i < |client.results| ==> client.results[i]
      {
        ok := client.Send(AckRecovery(toAck[sent].id));
        assert client.results[|before| + sent] == ok;
        assert AckCalls(toAck[..sent + 1]) == AckCalls(toAck[..sent]) + [AckRecovery(toAck[sent].id)];
        sent := sent + 1;
        if !ok { return; }
      }
      ok := true;
    }

    /** Writes Unknown to every condition of a node. */
    method MarkUnknown(host: string, ghost start: seq<NodeStatus>, ghost before: seq<NodeWrite>, now: int)
      requires cluster.nodes == ApplyWrites(start, before, now)
      modifies cluster`nodes
      ensures cluster.nodes == ApplyWrites(start, before + UnknownWritesFor(host), now)
    {
      ghost var w1 := before + [NodeWrite(host, Lagged, Unknown)];
      ghost var w2 := w1 + [NodeWrite(host, Replicating, Unknown)];
      ghost var w3 := w2 + [NodeWrite(host, Master, Unknown)];
      UpdateNodeCondition(host, Lagged, Unknown, start, before, now);
      UpdateNodeCondition(host, Replicating, Unknown, start, w1, now);
      UpdateNodeCondition(host, Master, Unknown, start, w2, now);
      UpdateNodeCondition(host, ReadOnly, Unknown, start, w3, now);
      AppendFour(before, NodeWrite(host, Lagged, Unknown), NodeWrite(host, Replicating, Unknown),
                 NodeWrite(host, Master, Unknown), NodeWrite(host, ReadOnly, Unknown));
    }

    /** Marks the nodes that are not reported and compacts the node list in place. */
    method RemoveNodeConditionNotInOrc(insts: seq<Instance>, now: int)
      modifies cluster`nodes
      ensures cluster.nodes == Kept(ApplyWrites(old(cluster.nodes), UnknownWrites(old(cluster.nodes), insts), now),
                                    cluster.replicas, cluster.annotationVersion)
    {
      MarkUnreported(insts, now);
      CompactNodes();
    }

    method MarkUnreported(insts: seq<Instance>, now: int)
      modifies cluster`nodes
      ensures cluster.nodes == ApplyWrites(old(cluster.nodes), UnknownWrites(old(cluster.nodes), insts), now)
    {
      var listed := cluster.nodes;
      assert ApplyWrites(listed, UnknownWrites(listed[..0], insts), now) == listed;
      hide UnknownWritesFor, UnknownWrites, ApplyWrites, GetInstance;
      for k := 0 to |listed|
        invariant cluster.nodes == ApplyWrites(listed, UnknownWrites(listed[..k], insts), now)
      {
        UnknownWritesSnoc(listed, k, insts);
        if GetInstance(insts, listed[k].name).None? {
          MarkUnknown(listed[k].name, listed, UnknownWrites(listed[..k], insts), now);
        }
      }
      assert listed[..|listed|] == listed;
    }

    method KeepsNode(nodeName: string) returns (keep: bool)
      ensures keep == KeepsName(nodeName, cluster.replicas, cluster.annotationVersion)
    {
      var index := IndexInSts(nodeName);
      keep := index.None? || (!ShouldRemoveOldNode(nodeName, cluster.annotationVersion)
                              && index.value < cluster.replicas);
    }

    /** Keeps the desired nodes, in order, by moving them to the front of the list and cutting it. */
    method CompactNodes()
      modifies cluster`nodes
      ensures cluster.nodes == Kept(old(cluster.nodes), cluster.replicas, cluster.annotationVersion)
    {
      ghost var marked := cluster.nodes;
      var validIndex := 0;
      assert marked[..0] == [];
      for k := 0 to |cluster.nodes|
        invariant Compacting(cluster.nodes, marked, k, validIndex, cluster.replicas, cluster.annotationVersion)
      {
        CompactingStep(cluster.nodes, marked, k, validIndex, cluster.replicas, cluster.annotationVersion);
        var ns := cluster.nodes[k];
        var keep := KeepsNode(ns.name);
        if keep {
          cluster.nodes := cluster.nodes[validIndex := ns];
          validIndex := validIndex + 1;
        }
      }
      assert marked[..|marked|] == marked;
      cluster.nodes := cluster.nodes[..validIndex];
    }

    /** Writes one condition on top of the writes made so far. */
    method UpdateNodeCondition(host: string, kind: NodeConditionType, status: ConditionStatus,
                               ghost start: seq<NodeStatus>, ghost before: seq<NodeWrite>, now: int)
      requires cluster.nodes == ApplyWrites(start, before, now)
      modifies cluster`nodes
      ensures cluster.nodes == ApplyWrites(start, before + [NodeWrite(host, kind, status)], now)
    {
      ApplySnoc(start, before, NodeWrite(host, kind, status), now);
      var _ := cluster.UpdateNodeConditionStatus(host, kind, status, now);
    }

    method UpdateNodesStatus(insts: seq<Instance>, master: Option<Instance>, now: int)
      modifies cluster`nodes
      ensures cluster.nodes == ApplyWrites(old(cluster.nodes), ReportWrites(insts, master, MaxSlaveLatency()), now)
    {
      var maxSlaveLatency := DEFAULT_MAX_SLAVE_LATENCY;
      if cluster.maxSlaveLatency.Some? { maxSlaveLatency := cluster.maxSlaveLatency.value; }
      ghost var start := cluster.nodes;
      for k := 0 to |insts|
        invariant cluster.nodes == ApplyWrites(start, ReportWrites(insts[..k], master, maxSlaveLatency), now)
      {
        ghost var before := ReportWrites(insts[..k], master, maxSlaveLatency);
        assert insts[..k + 1][..k] == insts[..k];
        assert before + [] == before;
        UpdateNodeStatus(insts[k], master, maxSlaveLatency, start, before, now);
      }
      assert insts[..|insts|] == insts;
    }

    function MaxSlaveLatency(): (r: int)
      reads cluster
      ensures r == if cluster.maxSlaveLatency.None? then 30 else cluster.maxSlaveLatency.value
    {
      if cluster.maxSlaveLatency.Some? then cluster.maxSlaveLatency.value else DEFAULT_MAX_SLAVE_LATENCY
    }

    /** Writes Unknown to the conditions of a node whose last check failed. */
    method MarkStale(node: Instance, ghost start: seq<NodeStatus>, ghost before: seq<NodeWrite>, now: int)
      requires cluster.nodes == ApplyWrites(start, before, now)
      modifies cluster`nodes
      ensures cluster.nodes == ApplyWrites(start, before + StaleWritesFor(node.key.hostname), now)
    {
      var host := node.key.hostname;
      ghost var w1 := before + [NodeWrite(host, Lagged, Unknown)];
      ghost var w2 := w1 + [NodeWrite(host, Replicating, Unknown)];
      UpdateNodeCondition(host, Lagged, Unknown, start, before, now);
      UpdateNodeCondition(host, Replicating, Unknown, start, w1, now);
      UpdateNodeCondition(host, Master, Unknown, start, w2, now);
      AppendThree(before, NodeWrite(host, Lagged, Unknown), NodeWrite(host, Replicating, Unknown),
                  NodeWrite(host, Master, Unknown));
    }

    /** The lag of a node as its report tells it. */
    method LagOf(node: Instance, master: Option<Instance>, maxSlaveLatency: int) returns (status: ConditionStatus)
      ensures status == LagStatus(node, master, maxSlaveLatency)
    {
      if master.Some? && node.key.hostname == master.value.key.hostname { return False; }
      if node.slaveLag.None? { return Unknown; }
      if node.slaveLag.value <= maxSlaveLatency { return False; }
      return True;
    }

    /** The body of the loop over the reported instances. */
    method UpdateNodeStatus(node: Instance, master: Option<Instance>, maxSlaveLatency: int,
                            ghost start: seq<NodeStatus>, ghost before: seq<NodeWrite>, now: int)
      requires cluster.nodes == ApplyWrites(start, before, now)
      modifies cluster`nodes
      ensures cluster.nodes == ApplyWrites(start, before + ReportWritesFor(node, master, maxSlaveLatency), now)
    {
      var host := node.key.hostname;
      if !node.isRecentlyChecked {
        if !node.isLastCheckValid { MarkStale(node, start, before, now); }
        assert before + [] == before;
        return;
      }
      var lag := LagOf(node, master, maxSlaveLatency);
      var replicating := if node.sqlRunning && node.ioRunning then True else False;
      var isMaster := if master.Some? && host == master.value.key.hostname then True else False;
      var readOnly := if node.readOnly then True else False;
      ghost var w1 := before + [NodeWrite(host, Lagged, lag)];
      ghost var w2 := w1 + [NodeWrite(host, Replicating, replicating)];
      ghost var w3 := w2 + [NodeWrite(host, Master, isMaster)];
      UpdateNodeCondition(host, Lagged, lag, start, before, now);
      UpdateNodeCondition(host, Replicating, replicating, start, w1, now);
      UpdateNodeCondition(host, Master, isMaster, start, w2, now);
      UpdateNodeCondition(host, ReadOnly, readOnly, start, w3, now);
      AppendFour(before, NodeWrite(host, Lagged, lag), NodeWrite(host, Replicating, replicating),
                 NodeWrite(host, Master, isMaster), NodeWrite(host, ReadOnly, readOnly));
    }

    /** Sends the call of the write gate for one instance, when there is one. */
    method MarkReadOnlyNode(inst: Instance, master: Option<Instance>) returns (ok: bool)
      modifies client
      ensures var calls := GateCallFor(inst, master, cluster.readOnly);
              client.calls == old(client.calls) + calls
              && (ok ==> client.readOnly == AfterCalls(old(client.readOnly), calls))
      ensures Answered(old(client.calls), old(client.results), client.calls, client.results)
      ensures ok <==> forall i :: |old(client.results)| <= i < |client.results| ==> client.results[i]
    {
      ok := true;
      LastCall(client.readOnly, inst, master, cluster.readOnly);
      if !inst.isUpToDate || inst.uptime < UPTIME_GRACE_TIME { return; }
      if master.None? || cluster.readOnly || inst.key.hostname != master.value.key.hostname {
        if !inst.readOnly { ok := client.Send(SetReadOnly(inst.key)); }
      } else {
        if inst.readOnly { ok := client.Send(SetWritable(inst.key)); }
      }
      assert client.results == old(client.results) || client.results[|old(client.results)|] == ok;
    }

    /** Sends the calls of the write gate; `errors` counts those that failed. */
    method MarkReadOnlyNodesInOrc(insts: seq<Instance>, master: Option<Instance>) returns (errors: nat)
      modifies client
      ensures var fip := Find(cluster.conditions, FailoverInProgress);
              var calls := GateCalls(fip.Some? && fip.value.status == True, insts, master, cluster.readOnly);
              client.calls == old(client.calls) + calls
              && (errors == 0 ==> client.readOnly == AfterCalls(old(client.readOnly), calls))
      ensures Answered(old(client.calls), old(client.results), client.calls, client.results)
      ensures errors == 0 <==> forall i :: |old(client.results)| <= i < |client.results| ==> client.results[i]
    {
      errors := 0;
      var fip := cluster.GetClusterCondition(FailoverInProgress);
      if fip.Some? && fip.value.status == True { return; }
      ghost var sent, results, flags := client.calls, client.results, client.readOnly;
      ghost var specReadOnly := cluster.readOnly;
      for k := 0 to |insts|
        invariant GateProgress(client.calls, client.readOnly, sent, flags, insts[..k], master, specReadOnly, errors)
        invariant Answered(sent, results, client.calls, client.results)
        invariant errors == 0 <==> forall i :: |results| <= i < |client.results| ==> client.results[i]
      {
        ghost var calls, readOnly := client.calls, client.readOnly;
        var ok := MarkReadOnlyNode(insts[k], master);
        GateProgressStep(calls, readOnly, client.calls, client.readOnly, sent, flags, insts, k, master, specReadOnly,
                         errors, ok);
        if !ok { errors := errors + 1; }
      }
      assert insts[..|insts|] == insts;
    }

    /** Reads the two conditions of pod `i` that readiness depends on. */
    method PodState(i: nat, ghost start: seq<NodeStatus>) returns (master: bool, replicating: bool)
      requires cluster.nodes == WithPods(start, cluster.name, cluster.namespace, i)
      modifies cluster`nodes
      ensures cluster.nodes == WithPods(start, cluster.name, cluster.namespace, i + 1)
      ensures master == PodIs(start, cluster.name, cluster.namespace, i, Master)
      ensures replicating == PodIs(start, cluster.name, cluster.namespace, i, Replicating)
    {
      var hostname := cluster.GetPodHostname(i);
      var m := cluster.GetNodeCondition(hostname, Master);
      var r := cluster.GetNodeCondition(hostname, Replicating);
      WithPodsKeeps(start, cluster.name, cluster.namespace, i + 1, hostname, Master);
      WithPodsKeeps(start, cluster.name, cluster.namespace, i + 1, hostname, Replicating);
      return m == Some(True), r == Some(True);
    }

    /** Looks at the pods one after the other, until one is neither master nor replicating. */
    method PodsAreReady() returns (ready: bool, k: nat)
      modifies cluster`nodes
      ensures k <= cluster.replicas && cluster.nodes == WithPods(old(cluster.nodes), cluster.name, cluster.namespace, k)
      ensures cluster.readyNodes == cluster.replicas ==>
                (ready <==> ClusterIsReady(old(cluster.nodes), cluster.name, cluster.namespace, cluster.replicas,
                                           cluster.readyNodes, cluster.readOnly))
    {
      ghost var start := cluster.nodes;
      var hasMaster := false;
      for i := 0 to cluster.replicas
        invariant cluster.nodes == WithPods(start, cluster.name, cluster.namespace, i)
        invariant hasMaster <==> SomePodIsMaster(start, cluster.name, cluster.namespace, i)
        invariant AllPodsWork(start, cluster.name, cluster.namespace, i)
      {
        OnePodMore(start, cluster.name, cluster.namespace, i);
        var master, replicating := PodState(i, start);
        if master {
          hasMaster := true;
        } else if !replicating {
          NotWorkingStaysSo(start, cluster.name, cluster.namespace, i, cluster.replicas);
          return false, i + 1;
        }
      }
      return hasMaster || cluster.readOnly || cluster.replicas == 0, cluster.replicas;
    }

    /** Writes the Ready condition; `k` counts the pods looked at. */
    method UpdateClusterReadyStatus(now: int) returns (k: nat)
      modifies cluster`conditions, cluster`nodes
      ensures k <= cluster.replicas && cluster.nodes == WithPods(old(cluster.nodes), cluster.name, cluster.namespace, k)
      ensures var ready := ClusterIsReady(old(cluster.nodes), cluster.name, cluster.namespace, cluster.replicas,
                                          cluster.readyNodes, cluster.readOnly);
              cluster.conditions == SetCondition(old(cluster.conditions), Ready, BoolStatus(ready), now)
    {
      if cluster.readyNodes != cluster.replicas {
        k := 0;
        cluster.UpdateStatusCondition(Ready, False, now);
        return;
      }
      var ready;
      ready, k := PodsAreReady();
      if ready {
        cluster.UpdateStatusCondition(Ready, True, now);
      } else {
        cluster.UpdateStatusCondition(Ready, False, now);
      }
    }

    method UpdateClusterReadOnlyStatus(insts: seq<Instance>, now: int)
      modifies cluster`conditions
      ensures cluster.conditions
              == SetCondition(old(cluster.conditions), ClusterReadOnly,
                              BoolStatus(forall x :: x in insts ==> x.readOnly), now)
    {
      var writable := 0;
      for k := 0 to |insts|
        invariant writable >= 0
        invariant writable == 0 <==> forall x :: x in insts[..k] ==> x.readOnly
      {
        assert insts[..k + 1] == insts[..k] + [insts[k]];
        if !insts[k].readOnly { writable := writable + 1; }
      }
      assert insts[..|insts|] == insts;
      cluster.UpdateStatusCondition(ClusterReadOnly, if writable == 0 then True else False, now);
    }

    method UpdateClusterFailoverInProgressStatus(master: Option<Instance>, now: int)
      modifies cluster`conditions
      ensures cluster.conditions == if MasterIsHealthy(master)
              then SetCondition(old(cluster.conditions), FailoverInProgress, False, now)
                                    else old(cluster.conditions)
    {
      if master.Some? && master.value.lastSeen.Some? && master.value.lastSeen.value < 5 {
        cluster.UpdateStatusCondition(FailoverInProgress, False, now);
      }
    }

    method UpdateFailoverAckStatus(recoveries: seq<Recovery>, now: int)
      modifies cluster`conditions
      ensures cluster.conditions
              == SetCondition(old(cluster.conditions), FailoverAck,
                              BoolStatus(exists r :: r in recoveries && !r.acknowledged), now)
    {
      var unack: seq<Recovery> := [];
      for k := 0 to |recoveries|
        invariant unack != [] <==> exists r :: r in recoveries[..k] && !r.acknowledged
      {
        assert recoveries[..k + 1] == recoveries[..k] + [recoveries[k]];
        if !recoveries[k].acknowledged { unack := unack + [recoveries[k]]; }
      }
      assert recoveries[..|recoveries|] == recoveries;
      cluster.UpdateStatusCondition(FailoverAck, if |unack| > 0 then True else False, now);
    }

    /** The status updates in the middle of a pass. */
    method UpdateStatus(ready: seq<Instance>, master: Option<Instance>, recoveries: seq<Recovery>,
                        now: int) returns (k: nat)
      modifies cluster`nodes, cluster`conditions
      ensures var reported := ApplyWrites(old(cluster.nodes), ReportWrites(ready, master, MaxSlaveLatency()), now);
              && k <= cluster.replicas
              && cluster.nodes == WithPods(reported, cluster.name, cluster.namespace, k)
              && cluster.conditions
                 == ConditionsAfterPass(old(cluster.conditions), ready, master,
                                        ClusterIsReady(reported, cluster.name, cluster.namespace, cluster.replicas,
                                                       cluster.readyNodes, cluster.readOnly),
                                        recoveries, now)
    {
      UpdateNodesStatus(ready, master, now);
      k := UpdateConditions(ready, master, recoveries, now);
    }

    method UpdateConditions(ready: seq<Instance>, master: Option<Instance>, recoveries: seq<Recovery>,
                            now: int) returns (k: nat)
      modifies cluster`nodes, cluster`conditions
      ensures k <= cluster.replicas && cluster.nodes == WithPods(old(cluster.nodes), cluster.name, cluster.namespace, k)
      ensures var isReady := ClusterIsReady(old(cluster.nodes), cluster.name, cluster.namespace, cluster.replicas,
                                            cluster.readyNodes, cluster.readOnly);
              cluster.conditions == ConditionsAfterPass(old(cluster.conditions), ready, master, isReady, recoveries,
                                                        now)
    {
      UpdateClusterFailoverInProgressStatus(master, now);
      UpdateClusterReadOnlyStatus(ready, now);
      k := UpdateClusterReadyStatus(now);
      UpdateFailoverAckStatus(recoveries, now);
    }

    /** The actions at the end of a pass, which depend on how long the cluster has been Ready. */
    method ForgetAndAcknowledge(forget: seq<InstanceKey>, recoveries: seq<Recovery>, now: int) returns (acked: nat)
      modifies client
      ensures acked <= |ToAck(recoveries, cluster.conditions, now)|
      ensures client.calls
              == old(client.calls)
                 + (if cluster.deleted || ReadyFor(cluster.conditions, now, FORGET_GRACE_TIME)
                    then ForgetCalls(forget) else [])
                 + AckCalls(ToAck(recoveries, cluster.conditions, now)[..acked])
      ensures client.readOnly == old(client.readOnly)
      ensures Answered(old(client.calls), old(client.results), client.calls, client.results)
      ensures UpToFirstFailure(client.results[|client.results| - acked..], acked,
                               |ToAck(recoveries, cluster.conditions, now)|)
    {
      ForgetNodesFromOrc(forget, now);
      var toAck := GetRecoveriesToAck(recoveries, now);
      hide ForgetCalls, ReadyFor, ToAck;
      ghost var sofar := |client.results|;
      var _, sent := AcknowledgeRecoveries(toAck);
      acked := sent;
      assert |client.results| - acked == sofar;
    }

    /** One pass. `audit` is None when the recoveries cannot be read. When Orchestrator is unreachable
        nothing happens at all. */
    method Sync(instances: Reply<seq<Instance>>, named: Reply<Instance>, audit: Option<seq<Recovery>>, now: int)
      returns (ok: bool, k: nat, acked: nat)
      modifies cluster`nodes, cluster`conditions, client
      ensures ok <==> !instances.Unreachable? && (instances.Answer? ==> !named.Unreachable?)
      ensures !ok ==> cluster.nodes == old(cluster.nodes) && cluster.conditions == old(cluster.conditions)
                      && client.calls == old(client.calls) && client.readOnly == old(client.readOnly)
      ensures ok ==>
                var insts := if instances.Answer? then instances.value else [];
                var master := if instances.Answer?
                              then ChosenMaster(if named.Answer? then Some(named.value) else None, insts) else None;
                var ready := ReadyInstances(cluster.name, cluster.namespace, cluster.replicas, insts);
                var recoveries := if audit.Some? then audit.value else [];
                var passed := NodesAfterPass(old(cluster.nodes), cluster.replicas, cluster.annotationVersion, ready,
                                             master, MaxSlaveLatency(), now);
                && k <= cluster.replicas
                && cluster.nodes == WithPods(passed, cluster.name, cluster.namespace, k)
                && cluster.conditions
                   == ConditionsAfterPass(old(cluster.conditions), ready, master,
                                          ClusterIsReady(passed, cluster.name, cluster.namespace, cluster.replicas,
                                                         cluster.readyNodes, cluster.readOnly),
                                          recoveries, now)
      ensures ok ==>
                var insts := if instances.Answer? then instances.value else [];
                var master := if instances.Answer?
                              then ChosenMaster(if named.Answer? then Some(named.value) else None, insts) else None;
                var ready := ReadyInstances(cluster.name, cluster.namespace, cluster.replicas, insts);
                var recoveries := if audit.Some? then audit.value else [];
                var fip := Find(old(cluster.conditions), FailoverInProgress);
                var gate := GateCalls(fip.Some? && fip.value.status == True, ready, master, cluster.readOnly);
                && acked <= |ToAck(recoveries, cluster.conditions, now)|
                && client.calls
                   == old(client.calls)
                      + CallsOfPass(cluster.name, cluster.namespace, cluster.replicas, cluster.readyNodes,
                                    cluster.deleted, insts, gate, cluster.conditions, recoveries, now, acked)
                && Answered(old(client.calls), old(client.results), client.calls, client.results)
                && UpToFirstFailure(client.results[|client.results| - acked..], acked,
                                    |ToAck(recoveries, cluster.conditions, now)|)
                && ((forall i :: |old(client.results)| <= i < |client.results| ==> client.results[i]) ==>
                      && acked == |ToAck(recoveries, cluster.conditions, now)|
                      && client.readOnly == AfterCalls(old(client.readOnly), gate))
    {
      hide ReadyInstances, ToDiscover, ToForget, KeysOf, GateCalls, ConditionsAfterPass, ClusterIsReady, WithPods,
           ReadyFor, ToAck, ChosenMaster, DiscoverCalls, ForgetCalls, AckCalls,
           Kept, ApplyWrites, UnknownWrites, ReportWrites, UpToFirstFailure, Answered, CallsOfPass;
      k, acked := 0, 0;
      var allInstances, master;
      ok, allInstances, master := GetFromOrchestrator(instances, named);
      if !ok { return; }
      ghost var c0, r0 := client.calls, client.results;
      var ready, discover, forget := UpdateNodesInOrc(allInstances);
      DiscoverNodesInOrc(discover);
      ghost var c1, r1 := client.calls, client.results;
      RemoveNodeConditionNotInOrc(ready, now);
      var errors := MarkReadOnlyNodesInOrc(ready, master);
      ghost var c2, r2 := client.calls, client.results;
      AnsweredOnward(c0, r0, c1, r1, c2, r2);
      var recoveries := if audit.Some? then audit.value else [];
      k := UpdateStatus(ready, master, recoveries, now);
      acked := ForgetAndAcknowledge(forget, recoveries, now);
      AnsweredOnward(c0, r0, c2, r2, client.calls, client.results);
      ghost var gate := c2[|c1|..];
      CallsAssembled(c0, cluster.name, cluster.namespace, cluster.replicas, cluster.readyNodes, cluster.deleted,
                     allInstances, gate, cluster.conditions, recoveries, now, acked);
      if forall i :: |r0| <= i < |client.results| ==> client.results[i] {
        AllOk(c0, r0, c1, r1, c2, r2, client.calls, client.results, acked,
              |ToAck(recoveries, cluster.conditions, now)|);
      }
    }
  }
}
