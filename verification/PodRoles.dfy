/** Copying the node status onto the role and healthy labels of the pods. */
module PodRoles {
  import opened Common
  import opened Names
  import opened Topology
  import opened ClusterStatus
  import opened Registration
  import opened NodeReports
  import opened OrcReconcile
  import opened PassGuarantees

  const ROLE := "role"
  const HEALTHY := "healthy"
  const LABEL_MASTER := "master"
  const LABEL_REPLICA := "replica"
  const LABEL_HEALTHY := "yes"
  const LABEL_NOT_HEALTHY := "no"

  type Labels = map<string, string>

  /** The labels of the pods that have been created, by pod name. */
  type Pods = map<string, Labels>

  /* ---- specification ---- */

  /** The node's own entry says master. */
  predicate MarkedMaster(n: NodeStatus) {
    var c := Find(n.conditions, Master);
    c.Some? && c.value.status == True
  }

  function NamesOf(nodes: seq<NodeStatus>): (r: seq<string>)
    ensures |r| == |nodes|
  {
    seq(|nodes|, i requires 0 <= i < |nodes| => nodes[i].name)
  }

  function ReplicaNodes(nodes: seq<NodeStatus>): seq<NodeStatus> { Filter((n: NodeStatus) => !MarkedMaster(n), nodes) }

  function MasterNodes(nodes: seq<NodeStatus>): seq<NodeStatus> { Filter((n: NodeStatus) => MarkedMaster(n), nodes) }

  /** One more node goes to the replicas or to the masters. */
  lemma NodesSnoc(nodes: seq<NodeStatus>, k: nat)
    requires k < |nodes|
    ensures var master := MarkedMaster(nodes[k]);
            && NamesOf(ReplicaNodes(nodes[..k + 1]))
               == NamesOf(ReplicaNodes(nodes[..k])) + (if master then [] else [nodes[k].name])
            && NamesOf(MasterNodes(nodes[..k + 1]))
               == NamesOf(MasterNodes(nodes[..k])) + (if master then [nodes[k].name] else [])
  {
    hide MarkedMaster;
    assert nodes[..k + 1] == nodes[..k] + [nodes[k]];
    FilterSnoc((n: NodeStatus) => !MarkedMaster(n), nodes[..k], nodes[k]);
    FilterSnoc((n: NodeStatus) => MarkedMaster(n), nodes[..k], nodes[k]);
  }

  /** The hosts in the order in which their pods are synced: replicas first, masters last. */
  function SyncOrder(nodes: seq<NodeStatus>): seq<string> {
    NamesOf(ReplicaNodes(nodes)) + NamesOf(MasterNodes(nodes))
  }

  function RoleOf(nodes: seq<NodeStatus>, host: string): string {
    if IsMaster(nodes, host) then LABEL_MASTER else LABEL_REPLICA
  }

  function HealthOf(nodes: seq<NodeStatus>, host: string): string {
    if IsMaster(nodes, host)
       || (NodeCond(nodes, host, Replicating) == Some(True) && NodeCond(nodes, host, Lagged) != Some(True))
    then LABEL_HEALTHY else LABEL_NOT_HEALTHY
  }

  /** The pods after syncing the pod of `host`; a pod that does not exist is skipped. */
  function Synced(nodes: seq<NodeStatus>, pods: Pods, host: string): Pods {
    var pod := PodNameForHost(host);
    if pod in pods then pods[pod := pods[pod][ROLE := RoleOf(nodes, host)][HEALTHY := HealthOf(nodes, host)]] else pods
  }

  function SyncedAll(nodes: seq<NodeStatus>, pods: Pods, hosts: seq<string>): Pods {
    if hosts == [] then pods
    else Synced(nodes, SyncedAll(nodes, pods, hosts[..|hosts| - 1]), hosts[|hosts| - 1])
  }

  /** A pod cannot be synced when it exists, and its node has no master condition or its host is one of the broken. */
  predicate CannotSync(nodes: seq<NodeStatus>, pods: Pods, broken: set<string>, host: string) {
    PodNameForHost(host) in pods && (NodeCond(nodes, host, Master) == None || host in broken)
  }

  predicate HasMasterLabel(pods: Pods, pod: string) {
    pod in pods && ROLE in pods[pod] && pods[pod][ROLE] == LABEL_MASTER
  }

  ghost predicate AtMostOneMasterPod(pods: Pods) {
    forall p, q :: HasMasterLabel(pods, p) && HasMasterLabel(pods, q) ==> p == q
  }

  ghost predicate AtMostOneMasterNode(nodes: seq<NodeStatus>) {
    forall a, b :: IsMaster(nodes, a) && IsMaster(nodes, b) ==> a == b
  }

  /** Every pod with the master label belongs to a listed node. */
  ghost predicate LabelsBelongToNodes(nodes: seq<NodeStatus>, pods: Pods) {
    forall p :: HasMasterLabel(pods, p) ==> PodOfNode(nodes, p)
  }

  /* ---- the label sync ---- */

  class RoleSyncer {
    var pods: Pods

    constructor (pods: Pods)
      ensures this.pods == pods
    {
      this.pods := pods;
    }

    method GetPodSyncers(nodes: seq<NodeStatus>) returns (hosts: seq<string>)
      ensures hosts == SyncOrder(nodes)
    {
      hide MarkedMaster;
      hosts := [];
      for k := 0 to |nodes|
        invariant hosts == NamesOf(ReplicaNodes(nodes[..k]))
      {
        NodesSnoc(nodes, k);
        if !MarkedMaster(nodes[k]) { hosts := hosts + [nodes[k].name]; }
      }
      assert nodes[..|nodes|] == nodes;
      ghost var replicas := hosts;
      for k := 0 to |nodes|
        invariant hosts == replicas + NamesOf(MasterNodes(nodes[..k]))
      {
        NodesSnoc(nodes, k);
        if MarkedMaster(nodes[k]) { hosts := hosts + [nodes[k].name]; }
      }
    }

    /** Syncs the pod of one host. It fails exactly when the pod exists and its node has no master condition, or the
        pod cannot be written; a missing pod is no failure. */
    method SyncPod(nodes: seq<NodeStatus>, host: string, writable: bool) returns (ok: bool)
      modifies this
      ensures ok <==> PodNameForHost(host) !in old(pods) || (NodeCond(nodes, host, Master) != None && writable)
      ensures pods == if ok then Synced(nodes, old(pods), host) else old(pods)
    {
      var pod := PodNameForHost(host);
      if pod !in pods { return true; }
      var master := NodeCond(nodes, host, Master);
      var replicating := NodeCond(nodes, host, Replicating);
      var lagged := NodeCond(nodes, host, Lagged);
      if master.None? { return false; }
      var isMaster := master == Some(True);
      var isLagged := lagged == Some(True);
      var isReplicating := replicating == Some(True);
      var role := LABEL_REPLICA;
      if isMaster { role := LABEL_MASTER; }
      var healthy := LABEL_NOT_HEALTHY;
      if isMaster || (!isMaster && isReplicating && !isLagged) { healthy := LABEL_HEALTHY; }
      if !writable { return false; }
      pods := pods[pod := pods[pod][ROLE := role][HEALTHY := healthy]];
      ok := true;
    }

    /** Syncs the pods in order until one fails; `k` counts those synced, and `broken` holds the hosts whose pods
        cannot be written. */
    method SyncPods(nodes: seq<NodeStatus>, broken: set<string>) returns (k: nat)
      modifies this
      ensures var order := SyncOrder(nodes);
              && k <= |order| && pods == SyncedAll(nodes, old(pods), order[..k])
              && (forall i :: 0 <= i < k ==> !CannotSync(nodes, old(pods), broken, order[i]))
              && (k < |order| ==> CannotSync(nodes, old(pods), broken, order[k]))
    {
      hide SyncOrder, Synced, SyncedAll, NodeCond, PodNameForHost;
      var hosts := GetPodSyncers(nodes);
      k := 0;
      SyncedNone(nodes, pods);
      while k < |hosts|
        invariant k <= |hosts| && pods == SyncedAll(nodes, old(pods), hosts[..k])
        invariant forall i :: 0 <= i < k ==> !CannotSync(nodes, old(pods), broken, hosts[i])
      {
        SameKeys(nodes, old(pods), hosts[..k]);
        SyncedLast(nodes, old(pods), hosts[..k], hosts[k]);
        assert hosts[..k + 1] == hosts[..k] + [hosts[k]];
        var ok := SyncPod(nodes, hosts[k], hosts[k] !in broken);
        if !ok { return; }
        k := k + 1;
      }
    }
  }

  /* ---- at most one pod is labelled master ---- */

  lemma {:induction false} SameKeys(nodes: seq<NodeStatus>, pods: Pods, hosts: seq<string>)
    ensures SyncedAll(nodes, pods, hosts).Keys == pods.Keys
  {
    if hosts != [] { SameKeys(nodes, pods, hosts[..|hosts| - 1]); }
  }

  /** Syncing replicas only removes master labels, and removes exactly those of the hosts it reaches. */
  lemma {:induction false} ReplicaSyncsOnlyRemove(nodes: seq<NodeStatus>, pods: Pods, hosts: seq<string>, p: string)
    requires forall h :: h in hosts ==> !IsMaster(nodes, h)
    ensures HasMasterLabel(SyncedAll(nodes, pods, hosts), p)
            <==> HasMasterLabel(pods, p) && forall h :: h in hosts ==> PodNameForHost(h) != p
  {
    if hosts != [] {
      hide HasMasterLabel, IsMaster, Synced, PodNameForHost;
      var prefix, last := hosts[..|hosts| - 1], hosts[|hosts| - 1];
      assert hosts == prefix + [last];
      RoleSynced(nodes, SyncedAll(nodes, pods, prefix), last, p);
      ReplicaSyncsOnlyRemove(nodes, pods, prefix, p);
    }
  }

  /** Syncing masters only adds labels, and adds exactly those of the existing pods it reaches. */
  lemma {:induction false} MasterSyncsOnlyAdd(nodes: seq<NodeStatus>, pods: Pods, before: seq<string>,
                                              hosts: seq<string>, p: string)
    requires forall h :: h in hosts ==> IsMaster(nodes, h)
    ensures HasMasterLabel(SyncedAll(nodes, pods, before + hosts), p)
            <==> HasMasterLabel(SyncedAll(nodes, pods, before), p)
                 || (p in pods && exists h :: h in hosts && PodNameForHost(h) == p)
  {
    if hosts == [] {
      assert before + hosts == before;
    } else {
      hide HasMasterLabel, IsMaster, Synced, SyncedAll, PodNameForHost;
      var prefix, last := hosts[..|hosts| - 1], hosts[|hosts| - 1];
      assert hosts == prefix + [last];
      assert before + hosts == (before + prefix) + [last];
      SyncedLast(nodes, pods, before + prefix, last);
      SameKeys(nodes, pods, before + prefix);
      RoleSynced(nodes, SyncedAll(nodes, pods, before + prefix), last, p);
      MasterSyncsOnlyAdd(nodes, pods, before, prefix, p);
    }
  }

  lemma RoleSynced(nodes: seq<NodeStatus>, pods: Pods, host: string, p: string)
    ensures HasMasterLabel(Synced(nodes, pods, host), p) <==>
            if p == PodNameForHost(host) then p in pods && IsMaster(nodes, host) else HasMasterLabel(pods, p)
  {
    assert ROLE != HEALTHY by { assert ROLE[0] != HEALTHY[0]; }
    assert LABEL_MASTER != LABEL_REPLICA by { assert LABEL_MASTER[0] != LABEL_REPLICA[0]; }
  }

  /** The own entry of a node decides like the lookup by name. */
  lemma MarkedIsMaster(nodes: seq<NodeStatus>, n: NodeStatus)
    requires WellFormed(nodes) && n in nodes
    ensures MarkedMaster(n) <==> IsMaster(nodes, n.name)
  {
    CondOfMember(nodes, n, Master);
  }

  lemma ReplicaNodesExactly(nodes: seq<NodeStatus>, n: NodeStatus)
    requires WellFormed(nodes)
    ensures n in ReplicaNodes(nodes) <==> n in nodes && !IsMaster(nodes, n.name)
    ensures n in MasterNodes(nodes) <==> n in nodes && IsMaster(nodes, n.name)
  {
    FilterMember((x: NodeStatus) => !MarkedMaster(x), nodes, n);
    FilterMember((x: NodeStatus) => MarkedMaster(x), nodes, n);
    if n in nodes { MarkedIsMaster(nodes, n); }
  }

  lemma ReplicaNamesAreReplicas(nodes: seq<NodeStatus>, host: string)
    requires WellFormed(nodes) && host in NamesOf(ReplicaNodes(nodes))
    ensures !IsMaster(nodes, host)
  {
    var names := NamesOf(ReplicaNodes(nodes));
    var i :| 0 <= i < |names| && names[i] == host;
    ReplicaNodesExactly(nodes, ReplicaNodes(nodes)[i]);
  }

  lemma MasterNamesAreMasters(nodes: seq<NodeStatus>, host: string)
    requires WellFormed(nodes) && host in NamesOf(MasterNodes(nodes))
    ensures IsMaster(nodes, host)
  {
    var names := NamesOf(MasterNodes(nodes));
    var i :| 0 <= i < |names| && names[i] == host;
    ReplicaNodesExactly(nodes, MasterNodes(nodes)[i]);
  }

  /** The host of a listed node is synced, as a master or as a replica. */
  lemma EveryNodeIsSynced(nodes: seq<NodeStatus>, n: NodeStatus)
    requires WellFormed(nodes) && n in nodes
    ensures IsMaster(nodes, n.name) ==> n.name in NamesOf(MasterNodes(nodes))
    ensures !IsMaster(nodes, n.name) ==> n.name in NamesOf(ReplicaNodes(nodes))
  {
    ReplicaNodesExactly(nodes, n);
    if IsMaster(nodes, n.name) {
      var i :| 0 <= i < |MasterNodes(nodes)| && MasterNodes(nodes)[i] == n;
      assert NamesOf(MasterNodes(nodes))[i] == n.name;
    } else {
      var i :| 0 <= i < |ReplicaNodes(nodes)| && ReplicaNodes(nodes)[i] == n;
      assert NamesOf(ReplicaNodes(nodes))[i] == n.name;
    }
  }

  lemma NamedByNode(nodes: seq<NodeStatus>, host: string)
    requires host in NamesOf(nodes)
    ensures exists n :: n in nodes && n.name == host
  {
    var i :| 0 <= i < |nodes| && NamesOf(nodes)[i] == host;
    assert nodes[i] in nodes;
  }

  ghost predicate PodOfMaster(nodes: seq<NodeStatus>, p: string) {
    exists n :: n in nodes && IsMaster(nodes, n.name) && PodNameForHost(n.name) == p
  }

  ghost predicate PodOfNode(nodes: seq<NodeStatus>, p: string) {
    exists n :: n in nodes && PodNameForHost(n.name) == p
  }

  /** After all pods are synced, the pods labelled master are those of the nodes marked master, and those
      labelled before that belong to no listed node: such a label is never taken away. */
  lemma LabelsAfterAllSyncs(nodes: seq<NodeStatus>, pods: Pods, p: string)
    requires WellFormed(nodes)
    ensures HasMasterLabel(SyncedAll(nodes, pods, SyncOrder(nodes)), p)
            <==> (p in pods && PodOfMaster(nodes, p)) || (HasMasterLabel(pods, p) && !PodOfNode(nodes, p))
  {
    var replicas, masters := NamesOf(ReplicaNodes(nodes)), NamesOf(MasterNodes(nodes));
    forall h | h in replicas ensures !IsMaster(nodes, h) && exists n :: n in nodes && n.name == h {
      ReplicaNamesAreReplicas(nodes, h);
      NamedByNode(ReplicaNodes(nodes), h);
      var n :| n in ReplicaNodes(nodes) && n.name == h;
      ReplicaNodesExactly(nodes, n);
    }
    forall h | h in masters ensures IsMaster(nodes, h) && exists n :: n in nodes && n.name == h {
      MasterNamesAreMasters(nodes, h);
      NamedByNode(MasterNodes(nodes), h);
      var n :| n in MasterNodes(nodes) && n.name == h;
      ReplicaNodesExactly(nodes, n);
    }
    forall n | n in nodes ensures if IsMaster(nodes, n.name) then n.name in masters else n.name in replicas {
      EveryNodeIsSynced(nodes, n);
    }
    ReplicaSyncsOnlyRemove(nodes, pods, replicas, p);
    MasterSyncsOnlyAdd(nodes, pods, replicas, masters, p);
  }

  /** A pod with the master label that belongs to no listed node. */
  ghost predicate Stray(nodes: seq<NodeStatus>, pods: Pods, p: string) {
    HasMasterLabel(pods, p) && !PodOfNode(nodes, p)
  }

  ghost predicate OnlyMasters(nodes: seq<NodeStatus>, pods: Pods) {
    forall p :: !Stray(nodes, pods, p)
  }

  ghost predicate OnlyOneStray(nodes: seq<NodeStatus>, pods: Pods) {
    && (forall p, q :: Stray(nodes, pods, p) && Stray(nodes, pods, q) ==> p == q)
    && (forall p :: p in pods ==> !PodOfMaster(nodes, p))
  }

  lemma PodsOfOneMaster(nodes: seq<NodeStatus>, p: string, q: string)
    requires AtMostOneMasterNode(nodes) && PodOfMaster(nodes, p) && PodOfMaster(nodes, q)
    ensures p == q
  {
  }

  /** When at most one node is marked master, syncing all pods leaves at most one pod labelled master exactly when
      no labelled pod belongs to no listed node, or when there is one such pod and the marked node has none. */
  lemma AtMostOneAfterAllSyncs(nodes: seq<NodeStatus>, pods: Pods)
    requires WellFormed(nodes) && AtMostOneMasterNode(nodes)
    ensures AtMostOneMasterPod(SyncedAll(nodes, pods, SyncOrder(nodes))) <==>
            OnlyMasters(nodes, pods) || OnlyOneStray(nodes, pods)
  {
    var after := SyncedAll(nodes, pods, SyncOrder(nodes));
    forall p
      ensures HasMasterLabel(after, p) <==> (p in pods && PodOfMaster(nodes, p)) || Stray(nodes, pods, p)
      ensures PodOfMaster(nodes, p) ==> PodOfNode(nodes, p)
    {
      LabelsAfterAllSyncs(nodes, pods, p);
    }
    forall p, q | PodOfMaster(nodes, p) && PodOfMaster(nodes, q) ensures p == q { PodsOfOneMaster(nodes, p, q); }
    hide HasMasterLabel, PodOfMaster, PodOfNode, SyncedAll, SyncOrder, WellFormed, AtMostOneMasterNode;
    if AtMostOneMasterPod(after) && !OnlyMasters(nodes, pods) {
      var p :| Stray(nodes, pods, p);
      forall q | q in pods ensures !PodOfMaster(nodes, q) {
        if PodOfMaster(nodes, q) { StrayIsNoMaster(nodes, pods, p, q); }
      }
    }
  }

  lemma StrayIsNoMaster(nodes: seq<NodeStatus>, pods: Pods, p: string, q: string)
    requires Stray(nodes, pods, p) && PodOfMaster(nodes, q)
    ensures p != q
  {
  }

  /** Syncing all pods neither makes nor removes labels of pods that belong to no listed node. */
  lemma SyncsKeepBelonging(nodes: seq<NodeStatus>, pods: Pods)
    requires WellFormed(nodes)
    ensures LabelsBelongToNodes(nodes, SyncedAll(nodes, pods, SyncOrder(nodes))) <==> LabelsBelongToNodes(nodes, pods)
  {
    var after := SyncedAll(nodes, pods, SyncOrder(nodes));
    forall p
      ensures HasMasterLabel(after, p) <==> (p in pods && PodOfMaster(nodes, p)) || Stray(nodes, pods, p)
      ensures PodOfMaster(nodes, p) ==> PodOfNode(nodes, p)
    {
      LabelsAfterAllSyncs(nodes, pods, p);
    }
    hide PodOfMaster, PodOfNode, SyncedAll, SyncOrder, WellFormed;
  }

  /** Before the first master is synced: only labels that were there are left. */
  lemma OneMasterDuringReplicas(nodes: seq<NodeStatus>, pods: Pods, k: nat)
    requires WellFormed(nodes) && AtMostOneMasterPod(pods) && k <= |ReplicaNodes(nodes)|
    ensures AtMostOneMasterPod(SyncedAll(nodes, pods, SyncOrder(nodes)[..k]))
  {
    var hosts := NamesOf(ReplicaNodes(nodes))[..k];
    assert SyncOrder(nodes)[..k] == hosts;
    forall h | h in hosts ensures !IsMaster(nodes, h) { ReplicaNamesAreReplicas(nodes, h); }
    forall p | HasMasterLabel(SyncedAll(nodes, pods, hosts), p) ensures HasMasterLabel(pods, p) {
      ReplicaSyncsOnlyRemove(nodes, pods, hosts, p);
    }
  }

  /** Once all replicas are synced, a master label is left only on the pod of the master node. */
  lemma OnlyMasterPodAfterReplicas(nodes: seq<NodeStatus>, pods: Pods, m: string, p: string)
    requires WellFormed(nodes) && AtMostOneMasterNode(nodes) && LabelsBelongToNodes(nodes, pods) && IsMaster(nodes, m)
    requires HasMasterLabel(SyncedAll(nodes, pods, NamesOf(ReplicaNodes(nodes))), p)
    ensures p == PodNameForHost(m)
  {
    var names := NamesOf(ReplicaNodes(nodes));
    forall h | h in names ensures !IsMaster(nodes, h) { ReplicaNamesAreReplicas(nodes, h); }
    ReplicaSyncsOnlyRemove(nodes, pods, names, p);
    var n :| n in nodes && PodNameForHost(n.name) == p;
    EveryNodeIsSynced(nodes, n);
  }

  lemma {:induction false} FilterKeepsDistinctNames(nodes: seq<NodeStatus>, keep: NodeStatus -> bool)
    requires WellFormed(nodes)
    ensures forall i, j :: 0 <= i < j < |Filter(keep, nodes)| ==>
            Filter(keep, nodes)[i].name != Filter(keep, nodes)[j].name
  {
    if nodes != [] {
      var prefix, n := nodes[..|nodes| - 1], nodes[|nodes| - 1];
      assert WellFormed(prefix) by { assert forall x :: x in prefix ==> x in nodes; }
      FilterKeepsDistinctNames(prefix, keep);
      forall x | x in Filter(keep, prefix) ensures x.name != n.name { FilterMember(keep, prefix, x); }
    }
  }

  lemma MasterNodesAreOne(nodes: seq<NodeStatus>)
    requires WellFormed(nodes) && AtMostOneMasterNode(nodes)
    ensures |MasterNodes(nodes)| <= 1
    ensures MasterNodes(nodes) != [] ==> IsMaster(nodes, MasterNodes(nodes)[0].name)
  {
    var ms := MasterNodes(nodes);
    FilterKeepsDistinctNames(nodes, (n: NodeStatus) => MarkedMaster(n));
    if ms != [] { ReplicaNodesExactly(nodes, ms[0]); }
    if |ms| > 1 { ReplicaNodesExactly(nodes, ms[1]); }
  }

  /** After every prefix of the pod syncs, at most one pod has the master label: when the status marks at
      most one node master, every pod labelled so far belongs to a listed node, and there was at most
      one such pod to begin with. */
  lemma AtMostOneMasterLabel(nodes: seq<NodeStatus>, pods: Pods, k: nat)
    requires WellFormed(nodes) && AtMostOneMasterNode(nodes)
    requires AtMostOneMasterPod(pods) && LabelsBelongToNodes(nodes, pods)
    requires k <= |SyncOrder(nodes)|
    ensures AtMostOneMasterPod(SyncedAll(nodes, pods, SyncOrder(nodes)[..k]))
  {
    var names := NamesOf(ReplicaNodes(nodes));
    if k <= |names| {
      OneMasterDuringReplicas(nodes, pods, k);
    } else {
      MasterNodesAreOne(nodes);
      var m := MasterNodes(nodes)[0].name;
      var order := SyncOrder(nodes);
      assert order[..k] == names + [m];
      assert order[..k][..|names|] == names;
      var before := SyncedAll(nodes, pods, names);
      forall p | HasMasterLabel(SyncedAll(nodes, pods, order[..k]), p) ensures p == PodNameForHost(m) {
        RoleSynced(nodes, before, m, p);
        if p != PodNameForHost(m) { OnlyMasterPodAfterReplicas(nodes, pods, m, p); }
      }
    }
  }

  /** The node list after a pass whose Ready check reached the first `k` pods. */
  function AfterPass(nodes: seq<NodeStatus>, name: string, namespace: string, replicas: nat,
                     annotationVersion: Option<string>,
                     insts: seq<Instance>, master: Option<Instance>, maxSlaveLatency: int, now: int,
                     k: nat): seq<NodeStatus> {
    WithPods(NodesAfterPass(nodes, replicas, annotationVersion, ReadyInstances(name, namespace, replicas, insts),
                            master, maxSlaveLatency, now), name, namespace, k)
  }

  /** A pass in which no instance was skipped leaves a list that marks at most one node master. */
  lemma PassLeavesOneMaster(nodes: seq<NodeStatus>, name: string, namespace: string, replicas: nat,
                            annotationVersion: Option<string>,
                            insts: seq<Instance>, master: Option<Instance>, maxSlaveLatency: int, now: int, k: nat)
    requires WellFormed(nodes) && forall x :: x in insts ==> !Skipped(x)
    ensures var after := AfterPass(nodes, name, namespace, replicas, annotationVersion, insts, master,
                                   maxSlaveLatency, now, k);
            WellFormed(after) && AtMostOneMasterNode(after)
  {
    var after := AfterPass(nodes, name, namespace, replicas, annotationVersion, insts, master, maxSlaveLatency, now, k);
    forall host ensures WellFormed(after) && (IsMaster(after, host) ==> IsMasterHost(master, host)) {
      MastersAfterSync(nodes, name, namespace, replicas, annotationVersion, insts, master, maxSlaveLatency, now, k,
                       host);
    }
    assert WellFormed(after) by {
      MastersAfterSync(nodes, name, namespace, replicas, annotationVersion, insts, master, maxSlaveLatency, now, k, "");
    }
  }

  /** An Orchestrator pass in which no instance was skipped, followed by any number of pod syncs, leaves
      at most one pod labelled master. */
  lemma PassThenLabels(nodes: seq<NodeStatus>, name: string, namespace: string, replicas: nat,
                       annotationVersion: Option<string>,
                       insts: seq<Instance>, master: Option<Instance>, maxSlaveLatency: int, now: int, k: nat,
                       pods: Pods, synced: nat)
    requires WellFormed(nodes) && (forall x :: x in insts ==> !Skipped(x)) && AtMostOneMasterPod(pods)
    requires var after := AfterPass(nodes, name, namespace, replicas, annotationVersion, insts, master,
                                    maxSlaveLatency, now, k);
             LabelsBelongToNodes(after, pods) && synced <= |SyncOrder(after)|
    ensures var after := AfterPass(nodes, name, namespace, replicas, annotationVersion, insts, master,
                                   maxSlaveLatency, now, k);
            AtMostOneMasterPod(SyncedAll(after, pods, SyncOrder(after)[..synced]))
  {
    PassLeavesOneMaster(nodes, name, namespace, replicas, annotationVersion, insts, master, maxSlaveLatency, now, k);
    AtMostOneMasterLabel(AfterPass(nodes, name, namespace, replicas, annotationVersion, insts, master,
                                   maxSlaveLatency, now, k), pods, synced);
  }

  /* ---- which passes keep the labelled pods listed ---- */

  lemma {:induction false} NamesWithPods(nodes: seq<NodeStatus>, name: string, namespace: string, k: nat, host: string)
    ensures host in NodeNames(WithPods(nodes, name, namespace, k)) <==>
            host in NodeNames(nodes) || IsPodHost(name, namespace, k, host)
  {
    if k > 0 {
      hide NodeNames, WithNode, NodeCond, PodHostname, IsPodHost;
      var before := WithPods(nodes, name, namespace, k - 1);
      assert WithPods(nodes, name, namespace, k) == WithNode(before, PodHostname(name, namespace, k - 1));
      NamesWithPods(nodes, name, namespace, k - 1, host);
      hide WithPods;
      NamesWithNode(before, PodHostname(name, namespace, k - 1), host);
      PodHostSnoc(name, namespace, k - 1, host);
    }
  }

  lemma NamesWithNode(nodes: seq<NodeStatus>, name: string, host: string)
    ensures host in NodeNames(WithNode(nodes, name)) <==> host in NodeNames(nodes) || host == name
  {
    hide NodeNames, WithNode, NodeCond;
    WithNodeKeeps(nodes, name, host, Master);
  }

  lemma PodHostSnoc(name: string, namespace: string, k: nat, host: string)
    ensures IsPodHost(name, namespace, k + 1, host) <==>
            IsPodHost(name, namespace, k, host) || host == PodHostname(name, namespace, k)
  {
    hide PodHostname;
    if IsPodHost(name, namespace, k, host) {
      var i: nat :| i < k && host == PodHostname(name, namespace, i);
    }
  }

  /** The hosts that are listed after a pass. */
  ghost predicate ListedAfter(nodes: seq<NodeStatus>, name: string, namespace: string, replicas: nat,
                              annotationVersion: Option<string>, insts: seq<Instance>, k: nat, host: string) {
    || (host in NodeNames(nodes) && KeepsName(host, replicas, annotationVersion))
    || WritesTo(ReadyInstances(name, namespace, replicas, insts), host)
    || IsPodHost(name, namespace, k, host)
  }

  lemma ListedExactly(nodes: seq<NodeStatus>, name: string, namespace: string, replicas: nat,
                      annotationVersion: Option<string>,
                      insts: seq<Instance>, master: Option<Instance>, maxSlaveLatency: int, now: int, k: nat,
                      host: string)
    ensures host in NodeNames(AfterPass(nodes, name, namespace, replicas, annotationVersion, insts, master,
                                        maxSlaveLatency, now, k))
            <==> ListedAfter(nodes, name, namespace, replicas, annotationVersion, insts, k, host)
  {
    hide NodesAfterPass, NodeNames, KeepsName, WithPods;
    var ready := ReadyInstances(name, namespace, replicas, insts);
    NamesAfterPass(nodes, replicas, annotationVersion, ready, master, maxSlaveLatency, now, host);
    NamesWithPods(NodesAfterPass(nodes, replicas, annotationVersion, ready, master, maxSlaveLatency, now), name,
                  namespace, k, host);
  }

  lemma PodOfNodeByName(nodes: seq<NodeStatus>, p: string)
    ensures PodOfNode(nodes, p) <==> exists host :: host in NodeNames(nodes) && PodNameForHost(host) == p
  {
    hide PodNameForHost;
    if PodOfNode(nodes, p) {
      var n :| n in nodes && PodNameForHost(n.name) == p;
      assert n.name in NodeNames(nodes);
    }
  }

  /** After a pass every pod labelled master belongs to a listed node exactly when it has a host that is kept by the
      compaction, or that the report wrote to, or that the Ready check looked at. */
  lemma LabelsBelongAfterPass(nodes: seq<NodeStatus>, name: string, namespace: string, replicas: nat,
                              annotationVersion: Option<string>, insts: seq<Instance>, master: Option<Instance>,
                              maxSlaveLatency: int, now: int, k: nat, pods: Pods)
    ensures var after := AfterPass(nodes, name, namespace, replicas, annotationVersion, insts, master,
                                   maxSlaveLatency, now, k);
            LabelsBelongToNodes(after, pods) <==>
            forall p :: HasMasterLabel(pods, p) ==>
              exists host :: ListedAfter(nodes, name, namespace, replicas, annotationVersion, insts, k, host)
                             && PodNameForHost(host) == p
  {
    var after := AfterPass(nodes, name, namespace, replicas, annotationVersion, insts, master, maxSlaveLatency, now, k);
    forall host
      ensures host in NodeNames(after) <==>
              ListedAfter(nodes, name, namespace, replicas, annotationVersion, insts, k, host)
    {
      ListedExactly(nodes, name, namespace, replicas, annotationVersion, insts, master, maxSlaveLatency, now, k, host);
    }
    hide AfterPass, ListedAfter, NodeNames, PodNameForHost, HasMasterLabel, PodOfNode;
    forall p ensures PodOfNode(after, p) <==> exists host :: host in NodeNames(after) && PodNameForHost(host) == p {
      PodOfNodeByName(after, p);
    }
  }

  /** Every node of the list is one of the cluster's own pods, desired or not. */
  ghost predicate OwnPodsOnly(nodes: seq<NodeStatus>, name: string, namespace: string) {
    forall host :: host in NodeNames(nodes) ==> IsPodHost(name, namespace, 0x8000_0000, host)
  }

  /** A pod that is no longer desired is dropped from the list, and so no sync takes its label away. */
  lemma LeftBehindKeepsItsLabel(nodes: seq<NodeStatus>, name: string, namespace: string, replicas: nat,
                                annotationVersion: Option<string>, insts: seq<Instance>, master: Option<Instance>,
                                maxSlaveLatency: int, now: int, k: nat, pods: Pods, ordinal: nat)
    requires WellFormed(nodes) && OwnPodsOnly(nodes, name, namespace) && PlainNames(name, namespace)
    requires k <= replicas <= ordinal < 0x8000_0000
    ensures var after := AfterPass(nodes, name, namespace, replicas, annotationVersion, insts, master,
                                   maxSlaveLatency, now, k);
            HasMasterLabel(SyncedAll(after, pods, SyncOrder(after)), PodName(name, ordinal))
            <==> HasMasterLabel(pods, PodName(name, ordinal))
  {
    var p := PodName(name, ordinal);
    var after := AfterPass(nodes, name, namespace, replicas, annotationVersion, insts, master, maxSlaveLatency, now, k);
    forall host | host in NodeNames(after) ensures PodNameForHost(host) != p {
      ListedExactly(nodes, name, namespace, replicas, annotationVersion, insts, master, maxSlaveLatency, now, k, host);
      ListedIsDesired(nodes, name, namespace, replicas, annotationVersion, insts, k, host, ordinal);
    }
    PodOfNodeByName(after, p);
    MastersAfterSync(nodes, name, namespace, replicas, annotationVersion, insts, master, maxSlaveLatency, now, k, "");
    hide AfterPass;
    LabelsAfterAllSyncs(after, pods, p);
    assert PodOfMaster(after, p) ==> PodOfNode(after, p);
  }

  lemma ListedIsDesired(nodes: seq<NodeStatus>, name: string, namespace: string, replicas: nat,
                        annotationVersion: Option<string>, insts: seq<Instance>, k: nat, host: string, ordinal: nat)
    requires ListedAfter(nodes, name, namespace, replicas, annotationVersion, insts, k, host)
    requires OwnPodsOnly(nodes, name, namespace) && PlainNames(name, namespace)
    requires k <= replicas <= ordinal < 0x8000_0000
    ensures PodNameForHost(host) != PodName(name, ordinal)
  {
    ReadyInstancesExactly(name, namespace, replicas, insts);
    assert IsPodHost(name, namespace, replicas, host) by {
      if host in NodeNames(nodes) && KeepsName(host, replicas, annotationVersion) {
        var i: nat :| i < 0x8000_0000 && host == PodHostname(name, namespace, i);
        OwnPodsAreKeptByOrdinal(name, namespace, i, replicas, annotationVersion);
      } else if IsPodHost(name, namespace, k, host) {
        var i: nat :| i < k && host == PodHostname(name, namespace, i);
      }
    }
    var i: nat :| i < replicas && host == PodHostname(name, namespace, i);
    assert '.' !in name by { assert forall c :: c in name ==> IsWordChar(c); }
    PodNameRoundTrip(name, namespace, i);
    if PodName(name, i) == PodName(name, ordinal) { PodNameInjective(name, i, ordinal); }
  }

  lemma PodNameInjective(name: string, i: nat, j: nat)
    requires PodName(name, i) == PodName(name, j)
    ensures i == j
  {
    HostnameInjective(name, "", i, j);
  }

  /* ---- the labels themselves ---- */

  /** The labels of a node's pod: its role, and whether it is healthy, which a master always is and a replica when
      it replicates and is not known to lag. */
  predicate Labelled(nodes: seq<NodeStatus>, labels: Labels, host: string) {
    var master := NodeCond(nodes, host, Master) == Some(True);
    && "role" in labels && labels["role"] == (if master then "master" else "replica")
    && "healthy" in labels
    && labels["healthy"] == (if master || (NodeCond(nodes, host, Replicating) == Some(True)
                                           && NodeCond(nodes, host, Lagged) != Some(True))
                             then "yes" else "no")
  }

  /** Syncing a host gives its pod, if it exists, these two labels, and leaves all else alone. */
  lemma SyncedExactly(nodes: seq<NodeStatus>, pods: Pods, host: string)
    ensures var after := Synced(nodes, pods, host);
            && after.Keys == pods.Keys
            && (forall p :: p in pods && p != PodNameForHost(host) ==> after[p] == pods[p])
            && (PodNameForHost(host) in pods ==>
                  var labels := after[PodNameForHost(host)];
                  && Labelled(nodes, labels, host)
                  && forall l :: l != "role" && l != "healthy" ==>
                       (l in labels <==> l in pods[PodNameForHost(host)])
                       && (l in labels ==> labels[l] == pods[PodNameForHost(host)][l]))
  {
    assert "role" != "healthy" by { assert "role"[0] != "healthy"[0]; }
    hide NodeCond, PodNameForHost;
  }

  /** Syncs of other hosts leave the labels of a pod alone. */
  lemma {:induction false} OthersKeepLabels(nodes: seq<NodeStatus>, pods: Pods, before: seq<string>, hosts: seq<string>,
                                            p: string)
    requires p in pods && forall h :: h in hosts ==> PodNameForHost(h) != p
    ensures p in SyncedAll(nodes, pods, before) && p in SyncedAll(nodes, pods, before + hosts)
    ensures SyncedAll(nodes, pods, before + hosts)[p] == SyncedAll(nodes, pods, before)[p]
  {
    hide Synced, PodNameForHost;
    SameKeys(nodes, pods, before);
    if hosts == [] {
      assert before + hosts == before;
    } else {
      var n := |hosts| - 1;
      var all := before + hosts;
      assert all[..|all| - 1] == before + hosts[..n] && all[|all| - 1] == hosts[n];
      assert hosts[n] in hosts;
      OthersKeepLabels(nodes, pods, before, hosts[..n], p);
      SameKeys(nodes, pods, before + hosts[..n]);
      SyncedExactly(nodes, SyncedAll(nodes, pods, before + hosts[..n]), hosts[n]);
    }
  }

  /** After all syncs the existing pod of each listed node is labelled as its node says, when no two nodes share a
      pod. */
  lemma LabelledAfterAllSyncs(nodes: seq<NodeStatus>, pods: Pods, n: NodeStatus)
    requires WellFormed(nodes) && n in nodes && PodNameForHost(n.name) in pods
    requires forall a, b :: a in nodes && b in nodes && PodNameForHost(a.name) == PodNameForHost(b.name) ==> a == b
    ensures var after := SyncedAll(nodes, pods, SyncOrder(nodes));
            PodNameForHost(n.name) in after && Labelled(nodes, after[PodNameForHost(n.name)], n.name)
  {
    var order, p := SyncOrder(nodes), PodNameForHost(n.name);
    EveryNodeIsSynced(nodes, n);
    assert n.name in order;
    hide Labelled, PodNameForHost, SyncOrder;
    var i := LastOf(order, p);
    OrderNamesNodes(nodes, order[i]);
    var m :| m in nodes && m.name == order[i];
    assert m == n;
    LastSyncLabels(nodes, pods, order, i);
  }

  /** The last sync of a pod decides its labels. */
  lemma LastSyncLabels(nodes: seq<NodeStatus>, pods: Pods, hosts: seq<string>, i: nat)
    requires i < |hosts| && PodNameForHost(hosts[i]) in pods
    requires forall h :: h in hosts[i + 1..] ==> PodNameForHost(h) != PodNameForHost(hosts[i])
    ensures var p, after := PodNameForHost(hosts[i]), SyncedAll(nodes, pods, hosts);
            p in after && Labelled(nodes, after[p], hosts[i])
  {
    hide *;
    var h, p := hosts[i], PodNameForHost(hosts[i]);
    assert hosts == hosts[..i + 1] + hosts[i + 1..];
    OthersKeepLabels(nodes, pods, hosts[..i + 1], hosts[i + 1..], p);
    SyncedLast(nodes, pods, hosts[..i], h);
    assert hosts[..i] + [h] == hosts[..i + 1];
    SameKeys(nodes, pods, hosts[..i]);
    SyncedExactly(nodes, SyncedAll(nodes, pods, hosts[..i]), h);
  }

  lemma SyncedNone(nodes: seq<NodeStatus>, pods: Pods)
    ensures SyncedAll(nodes, pods, []) == pods
  {
  }

  lemma SyncedLast(nodes: seq<NodeStatus>, pods: Pods, hosts: seq<string>, h: string)
    ensures SyncedAll(nodes, pods, hosts + [h]) == Synced(nodes, SyncedAll(nodes, pods, hosts), h)
  {
    hide Synced;
    assert (hosts + [h])[..|hosts|] == hosts;
  }

  /** The last host of the pod. */
  lemma {:induction false} LastOf(hosts: seq<string>, p: string) returns (i: nat)
    requires exists h :: h in hosts && PodNameForHost(h) == p
    ensures i < |hosts| && PodNameForHost(hosts[i]) == p
    ensures forall h :: h in hosts[i + 1..] ==> PodNameForHost(h) != p
  {
    hide PodNameForHost;
    var n := |hosts| - 1;
    if PodNameForHost(hosts[n]) == p {
      i := n;
    } else {
      assert hosts == hosts[..n] + [hosts[n]];
      i := LastOf(hosts[..n], p);
      assert hosts[i + 1..] == hosts[..n][i + 1..] + [hosts[n]];
    }
  }

  lemma OrderNamesNodes(nodes: seq<NodeStatus>, host: string)
    requires host in SyncOrder(nodes)
    ensures exists n :: n in nodes && n.name == host
  {
    if host in NamesOf(ReplicaNodes(nodes)) {
      NamedByNode(ReplicaNodes(nodes), host);
      var n :| n in ReplicaNodes(nodes) && n.name == host;
      FilterMember((x: NodeStatus) => !MarkedMaster(x), nodes, n);
    } else {
      NamedByNode(MasterNodes(nodes), host);
      var n :| n in MasterNodes(nodes) && n.name == host;
      FilterMember((x: NodeStatus) => MarkedMaster(x), nodes, n);
    }
  }
}
