/** What an Orchestrator pass guarantees, over runs of passes and in the fields of what it read. */
module PassGuarantees {
  import opened Common
  import opened Names
  import opened Topology
  import opened ClusterStatus
  import opened Registration
  import opened NodeReports
  import opened WriteGate
  import opened OrcReconcile

  /* ---- what a pass guarantees ---- */

  /** After a pass, a node marked master is the host of the master the pass worked with, or a registered
      pod that was marked before and was skipped. Without skipped instances there is at most one. */
  lemma MastersAfterSync(nodes: seq<NodeStatus>, name: string, namespace: string, replicas: nat,
                         annotationVersion: Option<string>,
                         insts: seq<Instance>, master: Option<Instance>, maxSlaveLatency: int, now: int, k: nat,
                         host: string)
    requires WellFormed(nodes)
    ensures var ready := ReadyInstances(name, namespace, replicas, insts);
            var after := WithPods(NodesAfterPass(nodes, replicas, annotationVersion, ready, master, maxSlaveLatency,
                                                 now), name, namespace, k);
            WellFormed(after)
            && (IsMaster(after, host) ==>
                || IsMasterHost(master, host)
                || (IsMaster(nodes, host) && IsPodHost(name, namespace, replicas, host)
                    && exists x :: x in insts && x.key.hostname == host && Skipped(x)))
            && ((forall x :: x in insts ==> !Skipped(x)) && IsMaster(after, host) ==> IsMasterHost(master, host))
  {
    var ready := ReadyInstances(name, namespace, replicas, insts);
    ReadyInstancesExactly(name, namespace, replicas, insts);
    var passed := NodesAfterPass(nodes, replicas, annotationVersion, ready, master, maxSlaveLatency, now);
    CondAfterPass(nodes, replicas, annotationVersion, ready, master, maxSlaveLatency, now, host, Master);
    MasterAfterPass(nodes, replicas, annotationVersion, ready, master, maxSlaveLatency, now, host);
    WithPodsKeeps(passed, name, namespace, k, host, Master);
  }

  /** Any host a pass makes writable is the settled master it chose, on a cluster that is not read-only
      and not in a failover; and a pass may forget exactly the registered instances of no desired pod (for when it
      does, see GateOfAPass). */
  lemma WhatSyncMaySend(name: string, namespace: string, replicas: nat, insts: seq<Instance>, master: Option<Instance>,
                        failover: bool, specReadOnly: bool, key: InstanceKey)
    ensures var ready := ReadyInstances(name, namespace, replicas, insts);
            SetWritable(key) in GateCalls(failover, ready, master, specReadOnly) ==>
              && !failover && !specReadOnly && IsMasterHost(master, key.hostname)
              && IsPodHost(name, namespace, replicas, key.hostname)
              && exists x :: x in insts && x.key == key && SettledInst(x)
    ensures var ready := ReadyInstances(name, namespace, replicas, insts);
            Forget(key) in ForgetCalls(ToForget(insts, ready)) <==>
              (exists x :: x in insts && x.key == key) && !IsPodHost(name, namespace, replicas, key.hostname)
  {
    var ready := ReadyInstances(name, namespace, replicas, insts);
    var forget := ToForget(insts, ready);
    GateCallsExactly(failover, ready, master, specReadOnly);
    ReadyInstancesExactly(name, namespace, replicas, insts);
    ForgetsExactly(insts, ready);
    assert Forget(key) in ForgetCalls(forget) <==> key in forget by {
      if key in forget {
        var i :| 0 <= i < |forget| && forget[i] == key;
        assert ForgetCalls(forget)[i] == Forget(key);
      }
    }
    if key in forget && IsPodHost(name, namespace, replicas, key.hostname) {
      PodHostIsNotForgotten(name, namespace, replicas, insts, key.hostname);
    }
    forall x | x in insts && x.key == key && key !in forget ensures IsPodHost(name, namespace, replicas, key.hostname) {
      var r := GetInstance(ready, key.hostname);
    }
  }

  /** Only recoveries that are at least 600 seconds old are acknowledged, and only after more than 600
      seconds of unbroken Ready. */
  lemma AcknowledgedOnlyAfterGrace(writes: seq<Write>, recoveries: seq<Recovery>, now: int, r: Recovery)
    requires ClockMonotone(writes)
    ensures r in ToAck(recoveries, RunWrites(writes), now) <==>
            r in recoveries && OldEnough(r, now) && exists i: nat :: UnbrokenSince(writes, i, now, RECOVERY_GRACE_TIME)
  {
    ReadyForMeansUnbroken(writes, now, RECOVERY_GRACE_TIME);
    FilterMember((x: Recovery) => OldEnough(x, now), recoveries, r);
  }

  /* ---- time over a run of passes ---- */

  /** The status of the cluster object as the API server has it. */
  class StoredStatus {
    var nodes: seq<NodeStatus>
    var conditions: seq<Condition<ClusterConditionType>>

    constructor (nodes: seq<NodeStatus>, conditions: seq<Condition<ClusterConditionType>>)
      ensures this.nodes == nodes && this.conditions == conditions
    {
      this.nodes, this.conditions := nodes, conditions;
    }

    /** The end of a reconcile, after the calls of the pass have been sent: a changed status is stored unless the
        cluster is being deleted or the update fails. */
    method UpdateAfterPass(cluster: MysqlCluster, updated: bool) returns (ok: bool)
      modifies this
      ensures var stored := !cluster.deleted && updated;
              && nodes == (if stored then cluster.nodes else old(nodes))
              && conditions == (if stored then cluster.conditions else old(conditions))
      ensures !ok <==> !cluster.deleted && !updated
                       && (old(nodes) != cluster.nodes || old(conditions) != cluster.conditions)
    {
      if (nodes != cluster.nodes || conditions != cluster.conditions) && !cluster.deleted {
        if !updated { return false; }
        nodes, conditions := cluster.nodes, cluster.conditions;
      }
      return true;
    }
  }

  /** What one pass wrote its conditions from. `ready` says whether it found the cluster ready, and `stored` whether
      its status was stored in the end. */
  datatype Pass = Pass(insts: seq<Instance>, master: Option<Instance>, ready: bool, recoveries: seq<Recovery>,
                       now: int, stored: bool)

  function Written(before: seq<Condition<ClusterConditionType>>, p: Pass): seq<Condition<ClusterConditionType>> {
    ConditionsAfterPass(before, p.insts, p.master, p.ready, p.recoveries, p.now)
  }

  /** The stored conditions of a new cluster after these passes. */
  function StoredConditions(passes: seq<Pass>): seq<Condition<ClusterConditionType>> {
    if passes == [] then []
    else
      var before, p := StoredConditions(passes[..|passes| - 1]), passes[|passes| - 1];
      if p.stored then Written(before, p) else before
  }

  /** The conditions on which the last pass decides what it may forget and acknowledge. */
  function SeenConditions(passes: seq<Pass>): seq<Condition<ClusterConditionType>>
    requires passes != []
  {
    Written(StoredConditions(passes[..|passes| - 1]), passes[|passes| - 1])
  }

  function ReadyWriteOf(p: Pass): Write { Write(Ready, BoolStatus(p.ready), p.now) }

  function StoredWrites(passes: seq<Pass>): seq<Write> {
    if passes == [] then []
    else
      var before, p := StoredWrites(passes[..|passes| - 1]), passes[|passes| - 1];
      if p.stored then before + [ReadyWriteOf(p)] else before
  }

  predicate PassesInOrder(passes: seq<Pass>) {
    forall i, j :: 0 <= i < j < |passes| ==> passes[i].now <= passes[j].now
  }

  /** Stored pass `i` found the cluster ready more than `grace` seconds ago, and so has every stored pass since. */
  ghost predicate ReadySince(passes: seq<Pass>, i: nat, now: int, grace: int) {
    && i < |passes| && passes[i].stored && passes[i].ready && now - passes[i].now > grace
    && forall j :: i < j < |passes| && passes[j].stored ==> passes[j].ready
  }

  ghost predicate HasReadySince(passes: seq<Pass>, now: int, grace: int) {
    exists i: nat :: ReadySince(passes, i, now, grace)
  }

  ghost predicate HasUnbroken(writes: seq<Write>, now: int, grace: int) {
    exists i: nat :: UnbrokenSince(writes, i, now, grace)
  }

  /** The stored Ready condition depends on what the stored passes found alone. */
  lemma {:induction false} ReadyOfRun(passes: seq<Pass>)
    ensures Find(StoredConditions(passes), Ready) == Find(RunWrites(StoredWrites(passes)), Ready)
  {
    if passes != [] {
      var n := |passes| - 1;
      var p := passes[n];
      var before, writes := StoredConditions(passes[..n]), StoredWrites(passes[..n]);
      ReadyOfRun(passes[..n]);
      if p.stored {
        hide ConditionsAfterPass;
        assert (writes + [ReadyWriteOf(p)])[..|writes|] == writes;
        ReadyAfterPass(before, p.insts, p.master, p.ready, p.recoveries, p.now);
        ReadyWrite(before, RunWrites(writes), BoolStatus(p.ready), p.now);
      }
    }
  }

  lemma {:induction false} WriteOfAPass(passes: seq<Pass>, w: Write)
    requires w in StoredWrites(passes)
    ensures exists i :: 0 <= i < |passes| && passes[i].now == w.time
  {
    var n := |passes| - 1;
    if w in StoredWrites(passes[..n]) {
      WriteOfAPass(passes[..n], w);
      var i :| 0 <= i < n && passes[..n][i].now == w.time;
      assert passes[i].now == w.time;
    } else {
      assert w == ReadyWriteOf(passes[n]);
    }
  }

  lemma ClockMonotoneSnoc(writes: seq<Write>, w: Write)
    requires ClockMonotone(writes) && forall i :: 0 <= i < |writes| ==> writes[i].time <= w.time
    ensures ClockMonotone(writes + [w])
  {
  }

  /** The writes of passes in order are in order. */
  lemma {:induction false} WritesInOrder(passes: seq<Pass>)
    requires PassesInOrder(passes)
    ensures ClockMonotone(StoredWrites(passes))
  {
    if passes != [] {
      var n := |passes| - 1;
      var before := StoredWrites(passes[..n]);
      WritesInOrder(passes[..n]);
      forall i | 0 <= i < |before| ensures before[i].time <= passes[n].now { WriteOfAPass(passes[..n], before[i]); }
      hide ClockMonotone, PassesInOrder;
      ClockMonotoneSnoc(before, ReadyWriteOf(passes[n]));
    }
  }

  /** One more write of Ready keeps a stretch of True going, or ends it. */
  lemma UnbrokenSnoc(writes: seq<Write>, w: Write, now: int, grace: int)
    requires w.kind == Ready
    ensures HasUnbroken(writes + [w], now, grace) <==>
            w.status == True && (now - w.time > grace || HasUnbroken(writes, now, grace))
  {
    var all := writes + [w];
    forall i: nat | UnbrokenSince(all, i, now, grace) && i < |writes| ensures UnbrokenSince(writes, i, now, grace) {
      assert forall j :: 0 <= j < |writes| ==> all[j] == writes[j];
    }
    if HasUnbroken(all, now, grace) {
      var i: nat :| UnbrokenSince(all, i, now, grace);
      assert all[|writes|] == w;
    }
    if w.status == True {
      if now - w.time > grace { assert UnbrokenSince(all, |writes|, now, grace); }
      if i: nat :| UnbrokenSince(writes, i, now, grace) { assert UnbrokenSince(all, i, now, grace); }
    }
  }

  /** Likewise one more pass, when it is stored. */
  lemma ReadySinceSnoc(passes: seq<Pass>, p: Pass, now: int, grace: int)
    ensures HasReadySince(passes + [p], now, grace) <==>
            if p.stored then p.ready && (now - p.now > grace || HasReadySince(passes, now, grace))
            else HasReadySince(passes, now, grace)
  {
    var all := passes + [p];
    if HasReadySince(all, now, grace) {
      var i: nat :| ReadySince(all, i, now, grace);
      assert all[|passes|] == p;
      if i < |passes| {
        assert forall j :: 0 <= j < |passes| ==> all[j] == passes[j];
        assert ReadySince(passes, i, now, grace);
      }
    }
    if i: nat :| ReadySince(passes, i, now, grace) {
      if p.stored ==> p.ready { assert ReadySince(all, i, now, grace); }
    }
    if p.stored && p.ready && now - p.now > grace { assert ReadySince(all, |passes|, now, grace); }
  }

  lemma {:induction false} SinceInWrites(passes: seq<Pass>, now: int, grace: int)
    ensures HasReadySince(passes, now, grace) <==> HasUnbroken(StoredWrites(passes), now, grace)
  {
    if passes != [] {
      var n := |passes| - 1;
      var p := passes[n];
      assert passes == passes[..n] + [p];
      SinceInWrites(passes[..n], now, grace);
      hide HasReadySince, HasUnbroken;
      ReadySinceSnoc(passes[..n], p, now, grace);
      UnbrokenSnoc(StoredWrites(passes[..n]), ReadyWriteOf(p), now, grace);
    }
  }

  /** Over any run of passes, the stored conditions open the gate exactly when some stored pass more than the grace
      time ago found the cluster ready, and so has every stored pass since. */
  lemma GateOpensExactly(passes: seq<Pass>, now: int, grace: int)
    requires PassesInOrder(passes)
    ensures ReadyFor(StoredConditions(passes), now, grace) <==> exists i: nat :: ReadySince(passes, i, now, grace)
  {
    var writes := StoredWrites(passes);
    ReadyOfRun(passes);
    WritesInOrder(passes);
    ReadyForMeansUnbroken(writes, now, grace);
    SinceInWrites(passes, now, grace);
    hide ReadySince, UnbrokenSince, StoredWrites, StoredConditions, ClockMonotone;
    assert HasUnbroken(writes, now, grace) <==> exists i: nat :: UnbrokenSince(writes, i, now, grace);
  }

  /** The passes that count for the gates of the last one: those that were stored, and itself. */
  predicate Counts(passes: seq<Pass>, i: nat)
    requires i < |passes|
  {
    passes[i].stored || i == |passes| - 1
  }

  /** Pass `i` found the cluster ready more than `grace` seconds ago, and so has every pass since that counts. */
  ghost predicate CountedReadySince(passes: seq<Pass>, i: nat, now: int, grace: int) {
    && i < |passes| && Counts(passes, i) && passes[i].ready && now - passes[i].now > grace
    && forall j :: i < j < |passes| && Counts(passes, j) ==> passes[j].ready
  }

  /** The same passes, the last of them stored. */
  function Storing(passes: seq<Pass>): (r: seq<Pass>)
    requires passes != []
    ensures PassesInOrder(passes) ==> PassesInOrder(r)
  {
    passes[|passes| - 1 := passes[|passes| - 1].(stored := true)]
  }

  lemma SeenIsStored(passes: seq<Pass>)
    requires passes != []
    ensures SeenConditions(passes) == StoredConditions(Storing(passes))
  {
    hide ConditionsAfterPass;
    assert Storing(passes)[..|passes| - 1] == passes[..|passes| - 1];
  }

  lemma CountedAsStored(passes: seq<Pass>, i: nat, now: int, grace: int)
    requires passes != []
    ensures ReadySince(Storing(passes), i, now, grace) <==> CountedReadySince(passes, i, now, grace)
  {
    var storing := Storing(passes);
    assert forall j :: 0 <= j < |passes| ==>
                         storing[j].stored == Counts(passes, j) && storing[j].ready == passes[j].ready;
  }

  /** The gate of a pass in front of forgetting hosts and acknowledging recoveries is open exactly when some pass that
      counts found the cluster ready more than the grace time ago, and so has every pass since that counts. */
  lemma GateOfAPass(passes: seq<Pass>, now: int, grace: int)
    requires PassesInOrder(passes) && passes != []
    ensures ReadyFor(SeenConditions(passes), now, grace)
            <==> exists i: nat :: CountedReadySince(passes, i, now, grace)
  {
    hide ReadySince, CountedReadySince, SeenConditions, StoredConditions, Storing, ReadyFor, PassesInOrder;
    var storing := Storing(passes);
    SeenIsStored(passes);
    GateOpensExactly(storing, now, grace);
    forall i: nat ensures ReadySince(storing, i, now, grace) <==> CountedReadySince(passes, i, now, grace) {
      CountedAsStored(passes, i, now, grace);
    }
    if i: nat :| ReadySince(storing, i, now, grace) { assert CountedReadySince(passes, i, now, grace); }
    if i: nat :| CountedReadySince(passes, i, now, grace) { assert ReadySince(storing, i, now, grace); }
  }

  /** Within the last `grace` seconds. */
  predicate Recent(p: Pass, now: int, grace: int) { now - p.now <= grace }

  /** A live cluster forgets hosts only if every recent pass that counts found it ready. So all recent passes did,
      unless there was one that did not and whose status was not stored. */
  lemma ForgetsOnlyAfterGrace(passes: seq<Pass>, now: int)
    requires PassesInOrder(passes) && passes != [] && ReadyFor(SeenConditions(passes), now, FORGET_GRACE_TIME)
    ensures forall k :: 0 <= k < |passes| && Recent(passes[k], now, FORGET_GRACE_TIME) && Counts(passes, k) ==>
                          passes[k].ready
    ensures (forall k :: 0 <= k < |passes| && Recent(passes[k], now, FORGET_GRACE_TIME) ==> passes[k].ready) <==>
            !exists k :: 0 <= k < |passes| && Recent(passes[k], now, FORGET_GRACE_TIME)
                         && !passes[k].ready && !passes[k].stored
  {
    GateOfAPass(passes, now, FORGET_GRACE_TIME);
    hide SeenConditions, ReadyFor;
    var i: nat :| CountedReadySince(passes, i, now, FORGET_GRACE_TIME);
    assert Counts(passes, |passes| - 1);
  }

  /** Why storing matters: a pass at 100 seconds that finds the cluster not ready, but whose status update fails,
      is not seen a second later, and hosts are forgotten. */
  lemma UnstoredPassIsOverlooked(insts: seq<Instance>, master: Option<Instance>, recoveries: seq<Recovery>)
    ensures var passes := [Pass(insts, master, true, recoveries, 0, true),
                           Pass(insts, master, false, recoveries, 100, false),
                           Pass(insts, master, true, recoveries, 101, true)];
            ReadyFor(SeenConditions(passes), 101, FORGET_GRACE_TIME)
  {
    var passes := [Pass(insts, master, true, recoveries, 0, true), Pass(insts, master, false, recoveries, 100, false),
                   Pass(insts, master, true, recoveries, 101, true)];
    GateOfAPass(passes, 101, FORGET_GRACE_TIME);
    assert CountedReadySince(passes, 0, 101, FORGET_GRACE_TIME);
  }

  /** The last pass acknowledges exactly the recoveries that are at least 600 seconds old, and only when the passes
      that count have found the cluster ready for more than 600 seconds. */
  lemma AcknowledgesExactly(passes: seq<Pass>, recoveries: seq<Recovery>, now: int, r: Recovery)
    requires PassesInOrder(passes) && passes != []
    ensures r in ToAck(recoveries, SeenConditions(passes), now) <==>
            && r in recoveries && OldEnough(r, now)
            && exists i: nat :: CountedReadySince(passes, i, now, RECOVERY_GRACE_TIME)
  {
    GateOfAPass(passes, now, RECOVERY_GRACE_TIME);
    hide SeenConditions, CountedReadySince;
    FilterMember((x: Recovery) => OldEnough(x, now), recoveries, r);
  }

  /* ---- every call of a pass, in the fields of what it read ---- */

  lemma DiscoverSent(name: string, namespace: string, replicas: nat, readyNodes: int, insts: seq<Instance>,
                     key: InstanceKey)
    ensures Discover(key) in DiscoverCalls(ToDiscover(name, namespace, replicas, readyNodes, insts)) <==>
            && (exists i: nat :: i < replicas && i < readyNodes
                                 && key == InstanceKey(PodHostname(name, namespace, i), 3306))
            && forall x :: x in insts ==> x.key.hostname != key.hostname
  {
    var keys := ToDiscover(name, namespace, replicas, readyNodes, insts);
    DiscoversExactly(name, namespace, replicas, readyNodes, insts);
    if key in keys {
      var k :| 0 <= k < |keys| && keys[k] == key;
      assert DiscoverCalls(keys)[k] == Discover(key);
      var i: nat :| i < replicas && Unregistered(name, namespace, readyNodes, insts, i, key);
    }
    if i: nat :| i < replicas && i < readyNodes && key == InstanceKey(PodHostname(name, namespace, i), 3306) {
      assert Unregistered(name, namespace, readyNodes, insts, i, key) <==> GetInstance(insts, key.hostname).None?;
    }
  }

  lemma ForgetSent(keys: seq<InstanceKey>, key: InstanceKey)
    ensures Forget(key) in ForgetCalls(keys) <==> key in keys
  {
    if key in keys {
      var i :| 0 <= i < |keys| && keys[i] == key;
      assert ForgetCalls(keys)[i] == Forget(key);
    }
  }

  lemma AckSent(recoveries: seq<Recovery>, id: int)
    ensures AckRecovery(id) in AckCalls(recoveries) <==> exists r :: r in recoveries && r.id == id
  {
    if r :| r in recoveries && r.id == id {
      var i :| 0 <= i < |recoveries| && recoveries[i] == r;
      assert AckCalls(recoveries)[i] == AckRecovery(id);
    }
  }

  lemma KeysListed(insts: seq<Instance>, key: InstanceKey)
    ensures key in KeysOf(insts) <==> exists x :: x in insts && x.key == key
  {
    if x :| x in insts && x.key == key {
      var i :| 0 <= i < |insts| && insts[i] == x;
      assert KeysOf(insts)[i] == key;
    }
  }

  /** The ready instances are those with the host of a desired pod. */
  lemma ReadyMembers(name: string, namespace: string, replicas: nat, insts: seq<Instance>, x: Instance)
    requires DistinctHosts(insts)
    ensures x in ReadyInstances(name, namespace, replicas, insts) <==>
            x in insts && IsPodHost(name, namespace, replicas, x.key.hostname)
  {
    ReadyInstancesExactly(name, namespace, replicas, insts);
    if x in insts { SameKeySameInstance(insts, GetInstance(insts, x.key.hostname).value, x); }
  }

  /** What makes a pass forget hosts: the cluster is deleted, or a pass that counts found it ready more than 30
      seconds ago, and so has every one since. */
  ghost predicate MayForget(passes: seq<Pass>, deleted: bool, now: int) {
    deleted || exists i: nat :: CountedReadySince(passes, i, now, 30)
  }

  /** The calls of the last of these passes to forget: for every registered instance when the cluster is deleted,
      and otherwise, once the cluster has been ready for 30 seconds, for those of no desired pod. */
  lemma ForgottenExactly(name: string, namespace: string, replicas: nat, deleted: bool, insts: seq<Instance>,
                         passes: seq<Pass>, now: int, key: InstanceKey)
    requires PassesInOrder(passes) && passes != []
    ensures var ready := ReadyInstances(name, namespace, replicas, insts);
            var forget := if deleted || ReadyFor(SeenConditions(passes), now, FORGET_GRACE_TIME)
                          then ForgetCalls(if deleted then KeysOf(insts) else ToForget(insts, ready)) else [];
            Forget(key) in forget <==>
            && (exists x :: x in insts && x.key == key) && MayForget(passes, deleted, now)
            && (deleted || !IsPodHost(name, namespace, replicas, key.hostname))
  {
    hide CountedReadySince, SeenConditions, ReadyFor;
    GateOfAPass(passes, now, FORGET_GRACE_TIME);
    KeysListed(insts, key);
    ForgetSent(KeysOf(insts), key);
    WhatSyncMaySend(name, namespace, replicas, insts, None, false, false, key);
  }

  /** Its acknowledgements, when no call fails: of the recoveries in the audit that are not acknowledged and began at
      least 600 seconds ago, once the cluster has been ready for more than 600 seconds. */
  lemma AcknowledgedExactly(passes: seq<Pass>, recoveries: seq<Recovery>, now: int, id: int)
    requires PassesInOrder(passes) && passes != []
    ensures AckRecovery(id) in AckCalls(ToAck(recoveries, SeenConditions(passes), now)) <==>
            && (exists i: nat :: CountedReadySince(passes, i, now, 600))
            && exists r :: r in recoveries && r.id == id && !r.acknowledged && r.started.Some?
                           && now - r.started.value >= 600
  {
    var toAck := ToAck(recoveries, SeenConditions(passes), now);
    AckSent(toAck, id);
    forall r: Recovery
      ensures r in toAck <==>
              && (r in recoveries && !r.acknowledged && r.started.Some? && now - r.started.value >= 600)
              && exists i: nat :: CountedReadySince(passes, i, now, 600)
    {
      AcknowledgesExactly(passes, recoveries, now, r);
    }
    hide CountedReadySince, SeenConditions, ReadyFor, ToAck, AckCalls;
  }

  /** What the last of these passes sends, call by call, when none of its calls fails. `failover` says whether a
      failover was recorded in the status it started from. */
  ghost predicate MeantToBeSent(name: string, namespace: string, replicas: nat, readyNodes: int, deleted: bool,
                                insts: seq<Instance>, master: Option<Instance>, failover: bool, specReadOnly: bool,
                                passes: seq<Pass>, recoveries: seq<Recovery>, now: int, call: Call) {
    match call
    case Discover(key) =>
      && !deleted && (forall x :: x in insts ==> x.key.hostname != key.hostname)
      && exists i: nat :: i < replicas && i < readyNodes && key == InstanceKey(PodHostname(name, namespace, i), 3306)
    case Forget(key) =>
      && (exists x :: x in insts && x.key == key) && MayForget(passes, deleted, now)
      && (deleted || !IsPodHost(name, namespace, replicas, key.hostname))
    case SetWritable(key) =>
      && !failover && !specReadOnly && master.Some? && key.hostname == master.value.key.hostname
      && IsPodHost(name, namespace, replicas, key.hostname)
      && exists x :: x in insts && x.key == key && x.isUpToDate && x.uptime >= 15 && x.readOnly
    case SetReadOnly(key) =>
      && !failover && (specReadOnly || master.None? || key.hostname != master.value.key.hostname)
      && IsPodHost(name, namespace, replicas, key.hostname)
      && exists x :: x in insts && x.key == key && x.isUpToDate && x.uptime >= 15 && !x.readOnly
    case AckRecovery(id) =>
      && (exists i: nat :: CountedReadySince(passes, i, now, 600))
      && exists r :: r in recoveries && r.id == id && !r.acknowledged && r.started.Some? && now - r.started.value >= 600
  }

  /** A pass without a failing call sends exactly what it is meant to. */
  lemma SentExactly(name: string, namespace: string, replicas: nat, readyNodes: int, deleted: bool,
                    insts: seq<Instance>, master: Option<Instance>, failover: bool, specReadOnly: bool,
                    passes: seq<Pass>, recoveries: seq<Recovery>, now: int, call: Call)
    requires DistinctHosts(insts) && PassesInOrder(passes) && passes != []
    ensures var conds := SeenConditions(passes);
            var gate := GateCalls(failover, ReadyInstances(name, namespace, replicas, insts), master, specReadOnly);
            call in CallsOfPass(name, namespace, replicas, readyNodes, deleted, insts, gate, conds, recoveries, now,
                                |ToAck(recoveries, conds, now)|)
            <==> MeantToBeSent(name, namespace, replicas, readyNodes, deleted, insts, master, failover, specReadOnly,
                               passes, recoveries, now, call)
  {
    var conds, ready := SeenConditions(passes), ReadyInstances(name, namespace, replicas, insts);
    GateCallsExactly(failover, ready, master, specReadOnly);
    forall x ensures x in ready <==> x in insts && IsPodHost(name, namespace, replicas, x.key.hostname) {
      ReadyMembers(name, namespace, replicas, insts, x);
    }
    hide GateCalls, ReadyInstances, ToAck, SeenConditions, CountedReadySince, ReadyFor, ToDiscover, ToForget, IsPodHost,
         MayForget, DistinctHosts, PassesInOrder, CallsOfPass, DiscoverCalls, ForgetCalls, AckCalls, KeysOf;
    GroupOf(name, namespace, replicas, readyNodes, deleted, insts, GateCalls(failover, ready, master, specReadOnly),
            conds, recoveries, now, call);
    match call
    case Discover(key) =>
      if !deleted { DiscoverSent(name, namespace, replicas, readyNodes, insts, key); }
    case Forget(key) => ForgottenExactly(name, namespace, replicas, deleted, insts, passes, now, key);
    case SetWritable(key) => MadeWritableExactly(failover, ready, master, specReadOnly, key);
    case SetReadOnly(key) => MadeReadOnlyExactly(failover, ready, master, specReadOnly, key);
    case AckRecovery(id) => AcknowledgedExactly(passes, recoveries, now, id);
  }

  /** Each kind of call belongs to one group of the calls of a pass. */
  lemma GroupOf(name: string, namespace: string, replicas: nat, readyNodes: int, deleted: bool, insts: seq<Instance>,
                gate: seq<Call>, conds: seq<Condition<ClusterConditionType>>, recoveries: seq<Recovery>, now: int,
                call: Call)
    requires forall c :: c in gate ==> c.SetWritable? || c.SetReadOnly?
    ensures var toAck := ToAck(recoveries, conds, now);
            var ready := ReadyInstances(name, namespace, replicas, insts);
            call in CallsOfPass(name, namespace, replicas, readyNodes, deleted, insts, gate, conds, recoveries, now,
                                |toAck|)
            <==>
            match call
            case Discover(_) =>
              !deleted && call in DiscoverCalls(ToDiscover(name, namespace, replicas, readyNodes, insts))
            case Forget(_) =>
              call in if deleted || ReadyFor(conds, now, FORGET_GRACE_TIME)
                      then ForgetCalls(if deleted then KeysOf(insts) else ToForget(insts, ready)) else []
            case SetWritable(_) => call in gate
            case SetReadOnly(_) => call in gate
            case AckRecovery(_) => call in AckCalls(toAck)
  {
    var toAck := ToAck(recoveries, conds, now);
    assert toAck[..|toAck|] == toAck;
    hide ToAck, ReadyFor, ToDiscover, ToForget, ReadyInstances, KeysOf;
  }

  /* ---- the rest of a pass in the fields of what it read ---- */

  /** No master is chosen exactly when there is none to choose, or the named and the determined one clash; otherwise
      it is the named one if there is one. */
  lemma ChosenExactly(named: Option<Instance>, insts: seq<Instance>)
    ensures ChosenMaster(named, insts).None? <==>
            if named.None? then MasterOf(insts).None?
            else exists m :: MasterOf(insts) == Some(m) && m.key.hostname != named.value.key.hostname
    ensures ChosenMaster(named, insts).Some? ==>
              ChosenMaster(named, insts) == if named.Some? then named else MasterOf(insts)
  {
  }

  /** The cluster is ready exactly when all replicas are, every desired pod is master or replicates, and some desired
      pod is master; a read-only cluster, or one without pods, needs none. */
  lemma ReadyExactly(nodes: seq<NodeStatus>, name: string, namespace: string, replicas: nat, readyNodes: int,
                     readOnly: bool)
    ensures ClusterIsReady(nodes, name, namespace, replicas, readyNodes, readOnly) <==>
            && readyNodes == replicas
            && (forall i: nat :: i < replicas ==>
                  NodeCond(nodes, PodHostname(name, namespace, i), Master) == Some(True)
                  || NodeCond(nodes, PodHostname(name, namespace, i), Replicating) == Some(True))
            && (readOnly || replicas == 0
                || exists i: nat :: i < replicas
                                    && NodeCond(nodes, PodHostname(name, namespace, i), Master) == Some(True))
  {
    if i: nat :| i < replicas && NodeCond(nodes, PodHostname(name, namespace, i), Master) == Some(True) {
      assert PodIs(nodes, name, namespace, i, Master);
    }
    forall i: nat | i < replicas
      ensures PodWorks(nodes, name, namespace, i) <==>
              NodeCond(nodes, PodHostname(name, namespace, i), Master) == Some(True)
              || NodeCond(nodes, PodHostname(name, namespace, i), Replicating) == Some(True)
    {
    }
  }

  function StatusOf(conds: seq<Condition<ClusterConditionType>>, kind: ClusterConditionType): Option<ConditionStatus> {
    var c := Find(conds, kind);
    if c.Some? then Some(c.value.status) else None
  }

  lemma StatusAfterWrite(conds: seq<Condition<ClusterConditionType>>, kind: ClusterConditionType,
                         status: ConditionStatus, now: int, other: ClusterConditionType)
    ensures StatusOf(SetCondition(conds, kind, status, now), other)
            == if other == kind then Some(status) else StatusOf(conds, other)
  {
    SetThenFind(conds, kind, status, now, other);
  }

  /** The cluster conditions after a pass. A failover is over when the master was seen less than five seconds ago. */
  lemma ConditionsExactly(conds: seq<Condition<ClusterConditionType>>, insts: seq<Instance>, master: Option<Instance>,
                          ready: bool, recoveries: seq<Recovery>, now: int, kind: ClusterConditionType)
    ensures StatusOf(ConditionsAfterPass(conds, insts, master, ready, recoveries, now), kind)
            == match kind
               case Ready => Some(if ready then True else False)
               case ClusterReadOnly => Some(if exists x :: x in insts && !x.readOnly then False else True)
               case FailoverAck => Some(if exists r :: r in recoveries && !r.acknowledged then True else False)
               case FailoverInProgress =>
                 if master.Some? && master.value.lastSeen.Some? && master.value.lastSeen.value < 5 then Some(False)
                 else StatusOf(conds, FailoverInProgress)
  {
    hide SetCondition, StatusOf;
    var c1 := if MasterIsHealthy(master) then SetCondition(conds, FailoverInProgress, False, now) else conds;
    var ro := BoolStatus(forall x :: x in insts ==> x.readOnly);
    var ack := BoolStatus(exists r :: r in recoveries && !r.acknowledged);
    var c2 := SetCondition(c1, ClusterReadOnly, ro, now);
    var c3 := SetCondition(c2, Ready, BoolStatus(ready), now);
    StatusAfterWrite(conds, FailoverInProgress, False, now, kind);
    StatusAfterWrite(c1, ClusterReadOnly, ro, now, kind);
    StatusAfterWrite(c2, Ready, BoolStatus(ready), now, kind);
    StatusAfterWrite(c3, FailoverAck, ack, now, kind);
  }
}
