/** The status lists of a cluster: conditions of the cluster, nodes and conditions of each node. */
module ClusterStatus {
  import opened Common
  import opened Names

  datatype ClusterConditionType = Ready | ClusterReadOnly | FailoverAck | FailoverInProgress

  datatype NodeConditionType = Lagged | Replicating | Master | ReadOnly

  /** A condition with the time of its last change of status, in seconds. */
  datatype Condition<+K> = Condition(kind: K, status: ConditionStatus, lastTransition: int)

  datatype NodeStatus = NodeStatus(name: string, conditions: seq<Condition<NodeConditionType>>)

  /* ---- condition lists ---- */

  /** The position of the first condition of this kind, or the length of the list. */
  function CondIndex<K(==)>(conds: seq<Condition<K>>, kind: K): (i: nat)
    ensures i <= |conds| && (i < |conds| ==> conds[i].kind == kind)
    ensures forall j :: 0 <= j < i ==> conds[j].kind != kind
  {
    if conds == [] || conds[0].kind == kind then 0
    else 1 + CondIndex(conds[1..], kind)
  }

  function Find<K(==)>(conds: seq<Condition<K>>, kind: K): Option<Condition<K>> {
    var i := CondIndex(conds, kind);
    if i < |conds| then Some(conds[i]) else None
  }

  /** Writes a status at time `now`: the transition time moves only when the status does. */
  function SetCondition<K(==)>(conds: seq<Condition<K>>, kind: K, status: ConditionStatus,
                               now: int): seq<Condition<K>> {
    var i := CondIndex(conds, kind);
    if i < |conds| then
      conds[i := Condition(kind, status, if conds[i].status == status then conds[i].lastTransition else now)]
    else conds + [Condition(kind, status, now)]
  }

  predicate DistinctKinds<K(==)>(conds: seq<Condition<K>>) {
    forall i, j :: 0 <= i < j < |conds| ==> conds[i].kind != conds[j].kind
  }

  lemma IndexIs<K>(conds: seq<Condition<K>>, kind: K, i: nat)
    requires i <= |conds| && (i < |conds| ==> conds[i].kind == kind)
    requires forall j :: 0 <= j < i ==> conds[j].kind != kind
    ensures CondIndex(conds, kind) == i
  {
  }

  /** A write changes the condition it names, leaves the others alone and adds no second one. */
  lemma SetThenFind<K>(conds: seq<Condition<K>>, kind: K, status: ConditionStatus, now: int, other: K)
    ensures var before := Find(conds, kind);
            var t := if before.Some? && before.value.status == status then before.value.lastTransition else now;
            Find(SetCondition(conds, kind, status, now), kind) == Some(Condition(kind, status, t))
    ensures other != kind ==> Find(SetCondition(conds, kind, status, now), other) == Find(conds, other)
    ensures DistinctKinds(conds) ==> DistinctKinds(SetCondition(conds, kind, status, now))
  {
    hide CondIndex;
    var after := SetCondition(conds, kind, status, now);
    IndexIs(after, kind, CondIndex(conds, kind));
    if other != kind {
      var i := CondIndex(conds, other);
      if i < |conds| { IndexIs(after, other, i); } else { IndexIs(after, other, |after|); }
    }
  }

  /* ---- the history of a condition ---- */

  /** One write of a cluster condition. */
  datatype Write = Write(kind: ClusterConditionType, status: ConditionStatus, time: int)

  function RunWrites(writes: seq<Write>): seq<Condition<ClusterConditionType>> {
    if writes == [] then []
    else
      var w := writes[|writes| - 1];
      SetCondition(RunWrites(writes[..|writes| - 1]), w.kind, w.status, w.time)
  }

  /** The clock does not run backwards. */
  predicate ClockMonotone(writes: seq<Write>) {
    forall i, j :: 0 <= i < j < |writes| ==> writes[i].time <= writes[j].time
  }

  /** Between write `i` and write `f`, some write of `kind` has another status than write `f`. */
  ghost predicate BrokenBetween(writes: seq<Write>, kind: ClusterConditionType, i: nat, f: nat)
    requires f < |writes|
  {
    exists j :: i <= j < f && writes[j].kind == kind && writes[j].status != writes[f].status
  }

  /** Every write of `kind` after write `f` repeats its status. */
  predicate RepeatedAfter(writes: seq<Write>, kind: ClusterConditionType, f: nat)
    requires f < |writes|
  {
    forall j :: f < j < |writes| && writes[j].kind == kind ==> writes[j].status == writes[f].status
  }

  /** Write `f` is the last flip of `kind`: every later write of the kind repeats its status, and from
      every earlier write of the kind on there was, before `f`, one with another status. */
  ghost predicate LastFlip(writes: seq<Write>, kind: ClusterConditionType, f: nat) {
    && f < |writes| && writes[f].kind == kind && RepeatedAfter(writes, kind, f)
    && forall i: nat :: i < f && writes[i].kind == kind ==> BrokenBetween(writes, kind, i, f)
  }

  lemma FlipStays(writes: seq<Write>, kind: ClusterConditionType, f: nat)
    requires writes != [] && LastFlip(writes[..|writes| - 1], kind, f)
    requires writes[|writes| - 1].kind == kind ==> writes[|writes| - 1].status == writes[f].status
    ensures LastFlip(writes, kind, f)
  {
    var prefix := writes[..|writes| - 1];
    assert RepeatedAfter(writes, kind, f) by {
      assert forall j :: 0 <= j < |prefix| ==> prefix[j] == writes[j];
    }
    forall i: nat | i < f && writes[i].kind == kind ensures BrokenBetween(writes, kind, i, f) {
      assert prefix[i].kind == kind;
      BrokenInPrefix(writes, kind, i, f);
    }
  }

  lemma BrokenInPrefix(writes: seq<Write>, kind: ClusterConditionType, i: nat, f: nat)
    requires f < |writes| - 1 && BrokenBetween(writes[..|writes| - 1], kind, i, f)
    ensures BrokenBetween(writes, kind, i, f)
  {
    var prefix := writes[..|writes| - 1];
    var j :| i <= j < f && prefix[j].kind == kind && prefix[j].status != prefix[f].status;
    assert writes[j] == prefix[j];
  }

  lemma NewFlip(writes: seq<Write>, kind: ClusterConditionType, f: nat)
    requires writes != [] && LastFlip(writes[..|writes| - 1], kind, f)
    requires writes[|writes| - 1].kind == kind && writes[|writes| - 1].status != writes[f].status
    ensures LastFlip(writes, kind, |writes| - 1)
  {
    var last := |writes| - 1;
    var prefix := writes[..last];
    forall i: nat | i < last && writes[i].kind == kind ensures BrokenBetween(writes, kind, i, last) {
      assert prefix[i] == writes[i] && prefix[f] == writes[f];
      var j := if i <= f then f else i;
      assert writes[j].kind == kind && writes[j].status != writes[last].status;
    }
  }

  /** After any run of writes, a condition is stored exactly when it was ever written. */
  lemma {:induction false} StoredExactlyWhenWritten(writes: seq<Write>, kind: ClusterConditionType)
    ensures Find(RunWrites(writes), kind).Some? <==> exists i :: 0 <= i < |writes| && writes[i].kind == kind
  {
    if writes != [] {
      var last := |writes| - 1;
      var prefix, w := writes[..last], writes[last];
      StoredExactlyWhenWritten(prefix, kind);
      SetThenFind(RunWrites(prefix), w.kind, w.status, w.time, kind);
      assert forall i :: 0 <= i < last ==> writes[i] == prefix[i];
    }
  }

  /** What is stored for `kind` comes from its last flip `f`. */
  ghost predicate StoresFlip(writes: seq<Write>, kind: ClusterConditionType, f: nat) {
    LastFlip(writes, kind, f)
    && Find(RunWrites(writes), kind) == Some(Condition(kind, writes[f].status, writes[f].time))
  }

  lemma FirstWriteIsFlip(writes: seq<Write>, kind: ClusterConditionType)
    requires writes != [] && writes[|writes| - 1].kind == kind
    requires forall i :: 0 <= i < |writes| - 1 ==> writes[i].kind != kind
    ensures LastFlip(writes, kind, |writes| - 1)
  {
  }

  /** After any run of writes, a stored condition holds the last status written and the time of the
      last flip. */
  lemma {:induction false} TransitionTimeIsLastFlip(writes: seq<Write>, kind: ClusterConditionType)
    requires Find(RunWrites(writes), kind).Some?
    ensures exists f: nat :: StoresFlip(writes, kind, f)
  {
    var last := |writes| - 1;
    var prefix, w := writes[..last], writes[last];
    SetThenFind(RunWrites(prefix), w.kind, w.status, w.time, kind);
    var before := Find(RunWrites(prefix), kind);
    if before.None? {
      StoredExactlyWhenWritten(prefix, kind);
      assert forall i :: 0 <= i < last ==> writes[i] == prefix[i];
      FirstWriteIsFlip(writes, kind);
      assert StoresFlip(writes, kind, last);
    } else {
      TransitionTimeIsLastFlip(prefix, kind);
      var f: nat :| StoresFlip(prefix, kind, f);
      if w.kind == kind && before.value.status != w.status {
        NewFlip(writes, kind, f);
        assert StoresFlip(writes, kind, last);
      } else {
        FlipStays(writes, kind, f);
        assert StoresFlip(writes, kind, f);
      }
    }
  }

  /** The cluster has been Ready for more than `grace` seconds, as its condition says. */
  predicate ReadyFor(conds: seq<Condition<ClusterConditionType>>, now: int, grace: int) {
    var ready := Find(conds, Ready);
    ready.Some? && ready.value.status == True && now - ready.value.lastTransition > grace
  }

  /** Write `i` found the cluster ready more than `grace` seconds ago, and so has every write since. */
  ghost predicate UnbrokenSince(writes: seq<Write>, i: nat, now: int, grace: int) {
    && i < |writes| && writes[i].kind == Ready && writes[i].status == True && now - writes[i].time > grace
    && forall j :: i < j < |writes| && writes[j].kind == Ready ==> writes[j].status == True
  }

  lemma {:induction false} OpenMeansUnbroken(writes: seq<Write>, f: nat, now: int, grace: int)
    requires StoresFlip(writes, Ready, f) && ReadyFor(RunWrites(writes), now, grace)
    ensures UnbrokenSince(writes, f, now, grace)
  {
  }

  lemma {:induction false} UnbrokenMeansOpen(writes: seq<Write>, f: nat, i: nat, now: int, grace: int)
    requires ClockMonotone(writes) && StoresFlip(writes, Ready, f) && UnbrokenSince(writes, i, now, grace)
    ensures ReadyFor(RunWrites(writes), now, grace)
  {
    if f < i { assert writes[f].time <= writes[i].time; }
  }

  /** The time gate is open exactly when Ready has been True without a break since a write that is more
      than the grace time old. */
  lemma {:induction false} ReadyForMeansUnbroken(writes: seq<Write>, now: int, grace: int)
    requires ClockMonotone(writes)
    ensures ReadyFor(RunWrites(writes), now, grace) <==> exists i: nat :: UnbrokenSince(writes, i, now, grace)
  {
    StoredExactlyWhenWritten(writes, Ready);
    if exists i :: 0 <= i < |writes| && writes[i].kind == Ready {
      TransitionTimeIsLastFlip(writes, Ready);
      var f: nat :| StoresFlip(writes, Ready, f);
      if ReadyFor(RunWrites(writes), now, grace) { OpenMeansUnbroken(writes, f, now, grace); }
      forall i: nat | UnbrokenSince(writes, i, now, grace) ensures ReadyFor(RunWrites(writes), now, grace) {
        UnbrokenMeansOpen(writes, f, i, now, grace);
      }
    }
  }

  /** While the gate is open, every Ready write of the last `grace` seconds wrote True. */
  lemma {:induction false} OpenGateHasOnlyTrue(writes: seq<Write>, now: int, grace: int, k: nat)
    requires ClockMonotone(writes) && ReadyFor(RunWrites(writes), now, grace)
    requires k < |writes| && writes[k].kind == Ready && now - writes[k].time <= grace
    ensures writes[k].status == True
  {
    ReadyForMeansUnbroken(writes, now, grace);
    var i: nat :| UnbrokenSince(writes, i, now, grace);
  }

  /* ---- node lists ---- */

  /** The position of the first node of this name, or the length of the list. */
  function NodeIndex(nodes: seq<NodeStatus>, name: string): (i: nat)
    ensures i <= |nodes| && (i < |nodes| ==> nodes[i].name == name)
    ensures forall j :: 0 <= j < i ==> nodes[j].name != name
  {
    if nodes == [] || nodes[0].name == name then 0
    else 1 + NodeIndex(nodes[1..], name)
  }

  /** The list with an entry for `name`, added at the end if there was none. */
  function WithNode(nodes: seq<NodeStatus>, name: string): (r: seq<NodeStatus>)
    ensures NodeIndex(r, name) == NodeIndex(nodes, name) < |r|
  {
    var r := if NodeIndex(nodes, name) < |nodes| then nodes else nodes + [NodeStatus(name, [])];
    NodeIndexIs(r, name, NodeIndex(nodes, name));
    r
  }

  lemma NodeIndexIs(nodes: seq<NodeStatus>, name: string, i: nat)
    requires i <= |nodes| && (i < |nodes| ==> nodes[i].name == name)
    requires forall j :: 0 <= j < i ==> nodes[j].name != name
    ensures NodeIndex(nodes, name) == i
  {
  }

  function SetNodeCondition(nodes: seq<NodeStatus>, name: string, kind: NodeConditionType, status: ConditionStatus,
                            now: int): seq<NodeStatus> {
    var all := WithNode(nodes, name);
    var i := NodeIndex(nodes, name);
    all[i := all[i].(conditions := SetCondition(all[i].conditions, kind, status, now))]
  }

  /** The status of a node condition; None when the node or the condition is not listed. */
  function NodeCond(nodes: seq<NodeStatus>, name: string, kind: NodeConditionType): Option<ConditionStatus> {
    var i := NodeIndex(nodes, name);
    if i < |nodes| then
      var c := Find(nodes[i].conditions, kind);
      if c.Some? then Some(c.value.status) else None
    else None
  }

  predicate IsMaster(nodes: seq<NodeStatus>, name: string) { NodeCond(nodes, name, Master) == Some(True) }

  /** Node names are distinct and so are the kinds of each node's conditions. */
  predicate WellFormed(nodes: seq<NodeStatus>) {
    && (forall i, j :: 0 <= i < j < |nodes| ==> nodes[i].name != nodes[j].name)
    && (forall n :: n in nodes ==> DistinctKinds(n.conditions))
  }

  function NodeNames(nodes: seq<NodeStatus>): set<string> { set n | n in nodes :: n.name }

  /** Adding a missing node changes no condition and keeps the list well-formed. */
  lemma WithNodeKeeps(nodes: seq<NodeStatus>, name: string, other: string, kind: NodeConditionType)
    ensures NodeCond(WithNode(nodes, name), other, kind) == NodeCond(nodes, other, kind)
    ensures WellFormed(nodes) ==> WellFormed(WithNode(nodes, name))
    ensures NodeNames(WithNode(nodes, name)) == NodeNames(nodes) + {name}
  {
    WithNodeKeepsCond(nodes, name, other, kind);
    var r := WithNode(nodes, name);
    if NodeIndex(nodes, name) < |nodes| {
      assert nodes[NodeIndex(nodes, name)] in nodes;
    } else {
      assert forall n :: n in r <==> n in nodes || n == NodeStatus(name, []);
      assert NodeStatus(name, []) in r;
    }
  }

  lemma WithNodeKeepsCond(nodes: seq<NodeStatus>, name: string, other: string, kind: NodeConditionType)
    ensures NodeCond(WithNode(nodes, name), other, kind) == NodeCond(nodes, other, kind)
  {
    var r := WithNode(nodes, name);
    var i := NodeIndex(nodes, other);
    if i < |nodes| { NodeIndexIs(r, other, i); }
    else if other == name { assert Find(NodeStatus(name, []).conditions, kind) == None; }
    else { NodeIndexIs(r, other, |r|); }
  }

  lemma SetNodeKeepsNames(nodes: seq<NodeStatus>, name: string, kind: NodeConditionType, status: ConditionStatus,
                          now: int)
    ensures NodeNames(SetNodeCondition(nodes, name, kind, status, now)) == NodeNames(nodes) + {name}
  {
    WithNodeKeeps(nodes, name, name, kind);
    var all := WithNode(nodes, name);
    var r := SetNodeCondition(nodes, name, kind, status, now);
    assert forall k :: 0 <= k < |r| ==> r[k].name == all[k].name;
    forall n | n in all ensures n.name in NodeNames(r) {
      var k :| 0 <= k < |all| && all[k] == n;
      assert r[k] in r;
    }
    forall n | n in r ensures n.name in NodeNames(all) {
      var k :| 0 <= k < |r| && r[k] == n;
      assert all[k] in all;
    }
  }

  lemma SetNodeKeepsWellFormed(nodes: seq<NodeStatus>, name: string, kind: NodeConditionType, status: ConditionStatus,
                               now: int)
    requires WellFormed(nodes)
    ensures WellFormed(SetNodeCondition(nodes, name, kind, status, now))
  {
    WithNodeKeeps(nodes, name, name, kind);
    var all := WithNode(nodes, name);
    var i := NodeIndex(nodes, name);
    var r := SetNodeCondition(nodes, name, kind, status, now);
    SetThenFind(all[i].conditions, kind, status, now, kind);
    assert all[i] in all;
    forall n | n in r ensures DistinctKinds(n.conditions) {
      var k :| 0 <= k < |r| && r[k] == n;
      assert all[k] in all;
    }
  }

  /** A write to a node condition changes that condition and no other. */
  lemma SetNodeThenLookup(nodes: seq<NodeStatus>, name: string, kind: NodeConditionType, status: ConditionStatus,
                          now: int,
                          other: string, otherKind: NodeConditionType)
    ensures NodeCond(SetNodeCondition(nodes, name, kind, status, now), other, otherKind)
            == if other == name && otherKind == kind then Some(status) else NodeCond(nodes, other, otherKind)
  {
    hide CondIndex, NodeIndex, SetCondition, Find, WithNode;
    WithNodeKeepsCond(nodes, name, other, otherKind);
    var all := WithNode(nodes, name);
    var i := NodeIndex(nodes, name);
    SetThenFind(all[i].conditions, kind, status, now, otherKind);
    NodeIndexIs(SetNodeCondition(nodes, name, kind, status, now), other, NodeIndex(all, other));
  }

  /** None of the first `n` nodes is marked master. */
  predicate NoMaster(nodes: seq<NodeStatus>, n: nat)
    requires n <= |nodes|
  {
    forall j :: 0 <= j < n ==> !IsMaster(nodes, nodes[j].name)
  }

  /** Node `k` is the last of the first `n` nodes that is marked master. */
  predicate LastMaster(nodes: seq<NodeStatus>, n: nat, k: int)
    requires n <= |nodes|
  {
    0 <= k < n && IsMaster(nodes, nodes[k].name) && forall j :: k < j < n ==> !IsMaster(nodes, nodes[j].name)
  }

  function LastMasterOf(nodes: seq<NodeStatus>, n: nat, otherwise: string): string
    requires n <= |nodes|
  {
    if n == 0 then otherwise
    else if IsMaster(nodes, nodes[n - 1].name) then nodes[n - 1].name
    else LastMasterOf(nodes, n - 1, otherwise)
  }

  lemma {:induction false} LastMasterIs(nodes: seq<NodeStatus>, n: nat, k: int, otherwise: string)
    requires n <= |nodes| && LastMaster(nodes, n, k)
    ensures LastMasterOf(nodes, n, otherwise) == nodes[k].name
  {
    hide IsMaster;
    if k < n - 1 { LastMasterIs(nodes, n - 1, k, otherwise); }
  }

  lemma {:induction false} NoMasterIs(nodes: seq<NodeStatus>, n: nat, otherwise: string)
    requires n <= |nodes| && NoMaster(nodes, n)
    ensures LastMasterOf(nodes, n, otherwise) == otherwise
  {
    hide IsMaster;
    if n > 0 { NoMasterIs(nodes, n - 1, otherwise); }
  }

  lemma {:induction false} SomeLastMaster(nodes: seq<NodeStatus>, n: nat)
    requires n <= |nodes| && !NoMaster(nodes, n)
    ensures exists k :: LastMaster(nodes, n, k)
  {
    hide IsMaster;
    if IsMaster(nodes, nodes[n - 1].name) {
      assert LastMaster(nodes, n, n - 1);
    } else {
      SomeLastMaster(nodes, n - 1);
      var k :| LastMaster(nodes, n - 1, k);
      assert LastMaster(nodes, n, k);
    }
  }

  /* ---- the cluster object ---- */

  class MysqlCluster {
    const name: string
    const namespace: string
    /** spec.replicas, after defaults. */
    var replicas: nat
    /** spec.readOnly. */
    var readOnly: bool
    var maxSlaveLatency: Option<int>
    var deleted: bool
    /** The value of the operator-version annotation. */
    var annotationVersion: Option<string>
    var readyNodes: int
    var conditions: seq<Condition<ClusterConditionType>>
    var nodes: seq<NodeStatus>

    constructor (name: string, namespace: string, replicas: nat)
      ensures this.name == name && this.namespace == namespace && this.replicas == replicas
      ensures conditions == [] && nodes == [] && readyNodes == 0 && !deleted && !readOnly
    {
      this.name, this.namespace, this.replicas := name, namespace, replicas;
      readOnly, deleted, readyNodes := false, false, 0;
      maxSlaveLatency, annotationVersion := None, None;
      conditions, nodes := [], [];
    }

    function GetPodHostname(ordinal: nat): string { PodHostname(name, namespace, ordinal) }

    method FindCondIndex(kind: ClusterConditionType) returns (i: nat, exists_: bool)
      ensures exists_ <==> CondIndex(conditions, kind) < |conditions|
      ensures exists_ ==> i == CondIndex(conditions, kind)
    {
      for k := 0 to |conditions|
        invariant forall j :: 0 <= j < k ==> conditions[j].kind != kind
      {
        if conditions[k].kind == kind {
          IndexIs(conditions, kind, k);
          return k, true;
        }
      }
      IndexIs(conditions, kind, |conditions|);
      return 0, false;
    }

    method UpdateStatusCondition(kind: ClusterConditionType, status: ConditionStatus, now: int)
      modifies this`conditions
      ensures conditions == SetCondition(old(conditions), kind, status, now)
    {
      if |conditions| == 0 {
        conditions := [Condition(kind, status, now)];
      } else {
        var i, found := FindCondIndex(kind);
        if found {
          var cond := conditions[i];
          var t := if cond.status != status then now else cond.lastTransition;
          conditions := conditions[i := Condition(kind, status, t)];
        } else {
          conditions := conditions + [Condition(kind, status, now)];
        }
      }
    }

    method GetClusterCondition(kind: ClusterConditionType) returns (c: Option<Condition<ClusterConditionType>>)
      ensures c == Find(conditions, kind)
    {
      var i, found := FindCondIndex(kind);
      return if found then Some(conditions[i]) else None;
    }

    method GetNodeStatusIndex(nodeName: string) returns (i: nat)
      modifies this`nodes
      ensures nodes == WithNode(old(nodes), nodeName) && i == NodeIndex(nodes, nodeName) < |nodes|
    {
      for k := 0 to |nodes|
        invariant nodes == old(nodes)
        invariant forall j :: 0 <= j < k ==> nodes[j].name != nodeName
      {
        if nodes[k].name == nodeName {
          NodeIndexIs(nodes, nodeName, k);
          return k;
        }
      }
      NodeIndexIs(nodes, nodeName, |nodes|);
      nodes := nodes + [NodeStatus(nodeName, [])];
      i := |nodes| - 1;
    }

    /** Writes a node condition; `changed` tells whether its status was another one before, or none. */
    method UpdateNodeConditionStatus(nodeName: string, kind: NodeConditionType, status: ConditionStatus, now: int)
      returns (changed: bool)
      modifies this`nodes
      ensures nodes == SetNodeCondition(old(nodes), nodeName, kind, status, now)
      ensures changed <==> NodeCond(old(nodes), nodeName, kind) != Some(status)
    {
      var n := GetNodeStatusIndex(nodeName);
      WithNodeKeeps(old(nodes), nodeName, nodeName, kind);
      var conds := nodes[n].conditions;
      if |conds| == 0 {
        conds := [Condition(kind, status, now)];
        changed := true;
      } else {
        var i := FindNodeConditionIndex(conds, kind);
        if i.Some? {
          var cond := conds[i.value];
          changed := cond.status != status;
          conds := conds[i.value := Condition(kind, status, if changed then now else cond.lastTransition)];
        } else {
          conds := conds + [Condition(kind, status, now)];
          changed := true;
        }
      }
      assert conds == SetCondition(nodes[n].conditions, kind, status, now);
      nodes := nodes[n := nodes[n].(conditions := conds)];
    }

    static method FindNodeConditionIndex(conds: seq<Condition<NodeConditionType>>,
                                         kind: NodeConditionType) returns (r: Option<nat>)
      ensures r == if CondIndex(conds, kind) < |conds| then Some(CondIndex(conds, kind)) else None
    {
      for k := 0 to |conds|
        invariant forall j :: 0 <= j < k ==> conds[j].kind != kind
      {
        if conds[k].kind == kind {
          IndexIs(conds, kind, k);
          return Some(k);
        }
      }
      IndexIs(conds, kind, |conds|);
      return None;
    }

    /** Reads a node condition; a node that is not listed is added on the way. */
    method GetNodeCondition(nodeName: string, kind: NodeConditionType) returns (status: Option<ConditionStatus>)
      modifies this`nodes
      ensures nodes == WithNode(old(nodes), nodeName)
      ensures status == NodeCond(nodes, nodeName, kind)
    {
      var n := GetNodeStatusIndex(nodeName);
      var i := FindNodeConditionIndex(nodes[n].conditions, kind);
      return if i.Some? then Some(nodes[n].conditions[i.value].status) else None;
    }

    /** The host of the last node marked master, or pod 0 when no node is. The node list is unchanged. */
    method GetMasterHost() returns (host: string)
      modifies this`nodes
      ensures nodes == old(nodes)
      ensures forall k :: LastMaster(nodes, |nodes|, k) ==> host == nodes[k].name
      ensures NoMaster(nodes, |nodes|) ==> host == GetPodHostname(0)
      ensures NoMaster(nodes, |nodes|) || exists k :: LastMaster(nodes, |nodes|, k)
    {
      host := GetPodHostname(0);
      ghost var podZero := host;
      var listed := nodes;
      hide NodeCond;
      for k := 0 to |listed|
        invariant nodes == old(nodes) == listed
        invariant host == LastMasterOf(listed, k, podZero)
      {
        var cond := GetNodeCondition(listed[k].name, Master);
        if cond == Some(True) {
          host := listed[k].name;
        }
      }

      forall k | LastMaster(listed, |listed|, k) ensures host == listed[k].name {
        LastMasterIs(listed, |listed|, k, podZero);
      }
      if NoMaster(listed, |listed|) {
        NoMasterIs(listed, |listed|, podZero);
      } else {
        SomeLastMaster(listed, |listed|);
      }
    }
  }
}
