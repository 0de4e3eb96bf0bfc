/** The node conditions that one Orchestrator report writes, and what they add up to. */
module NodeReports {
  import opened Common
  import opened Names
  import opened Topology
  import opened ClusterStatus

  const DEFAULT_MAX_SLAVE_LATENCY := 30
  const OLD_NODES_PART := "-mysql-nodes"
  const UPGRADED_FROM_03 := "300"

  /** One write of a node condition. */
  datatype NodeWrite = NodeWrite(host: string, kind: NodeConditionType, status: ConditionStatus)

  function ApplyWrites(nodes: seq<NodeStatus>, writes: seq<NodeWrite>, now: int): seq<NodeStatus> {
    if writes == [] then nodes
    else
      var w := writes[|writes| - 1];
      SetNodeCondition(ApplyWrites(nodes, writes[..|writes| - 1], now), w.host, w.kind, w.status, now)
  }

  lemma AppendThree(before: seq<NodeWrite>, a: NodeWrite, b: NodeWrite, c: NodeWrite)
    ensures before + [a] + [b] + [c] == before + [a, b, c]
  {
  }

  lemma AppendFour(before: seq<NodeWrite>, a: NodeWrite, b: NodeWrite, c: NodeWrite, d: NodeWrite)
    ensures before + [a] + [b] + [c] + [d] == before + [a, b, c, d]
  {
  }

  lemma ApplySnoc(nodes: seq<NodeStatus>, writes: seq<NodeWrite>, w: NodeWrite, now: int)
    ensures ApplyWrites(nodes, writes + [w], now)
            == SetNodeCondition(ApplyWrites(nodes, writes, now), w.host, w.kind, w.status, now)
  {
    assert (writes + [w])[..|writes|] == writes;
  }

  /** The status that the writes leave for a condition; None when none of them names it. */
  function LastStatus(writes: seq<NodeWrite>, host: string, kind: NodeConditionType): Option<ConditionStatus> {
    if writes == [] then None
    else
      var w := writes[|writes| - 1];
      if w.host == host && w.kind == kind then Some(w.status)
      else LastStatus(writes[..|writes| - 1], host, kind)
  }

  lemma {:induction false} LastStatusConcat(a: seq<NodeWrite>, b: seq<NodeWrite>, host: string, kind: NodeConditionType)
    ensures LastStatus(a + b, host, kind)
            == if LastStatus(b, host, kind).Some? then LastStatus(b, host, kind) else LastStatus(a, host, kind)
  {
    if b == [] {
      assert a + b == a;
    } else {
      assert (a + b)[..|a + b| - 1] == a + b[..|b| - 1];
      LastStatusConcat(a, b[..|b| - 1], host, kind);
    }
  }

  /** The last write to a condition wins; a condition that no write names is as before. The list stays
      well-formed and gains only nodes that are written to. */
  lemma {:induction false} LastWriteWins(nodes: seq<NodeStatus>, writes: seq<NodeWrite>, now: int, host: string,
                                         kind: NodeConditionType)
    ensures NodeCond(ApplyWrites(nodes, writes, now), host, kind)
            == if LastStatus(writes, host, kind).Some? then LastStatus(writes, host, kind)
               else NodeCond(nodes, host, kind)
    ensures WellFormed(nodes) ==> WellFormed(ApplyWrites(nodes, writes, now))
    ensures NodeNames(ApplyWrites(nodes, writes, now)) == NodeNames(nodes) + set w | w in writes :: w.host
  {
    hide NodeCond, SetNodeCondition, NodeNames, WellFormed;
    if writes != [] {
      var prefix, w := writes[..|writes| - 1], writes[|writes| - 1];
      assert writes == prefix + [w];
      LastWriteWins(nodes, prefix, now, host, kind);
      SetNodeThenLookup(ApplyWrites(nodes, prefix, now), w.host, w.kind, w.status, now, host, kind);
      SetNodeKeepsNames(ApplyWrites(nodes, prefix, now), w.host, w.kind, w.status, now);
      if WellFormed(nodes) {
        SetNodeKeepsWellFormed(ApplyWrites(nodes, prefix, now), w.host, w.kind, w.status, now);
      }
    }
  }

  /* ---- nodes that Orchestrator does not report ---- */

  function UnknownWritesFor(host: string): seq<NodeWrite> {
    [NodeWrite(host, Lagged, Unknown), NodeWrite(host, Replicating, Unknown),
     NodeWrite(host, Master, Unknown), NodeWrite(host, ReadOnly, Unknown)]
  }

  function UnknownWrites(nodes: seq<NodeStatus>, insts: seq<Instance>): seq<NodeWrite> {
    if nodes == [] then []
    else
      var n := nodes[|nodes| - 1];
      UnknownWrites(nodes[..|nodes| - 1], insts)
      + (if GetInstance(insts, n.name).None? then UnknownWritesFor(n.name) else [])
  }

  lemma UnknownWritesSnoc(nodes: seq<NodeStatus>, k: nat, insts: seq<Instance>)
    requires k < |nodes|
    ensures UnknownWrites(nodes[..k + 1], insts)
            == if GetInstance(insts, nodes[k].name).None?
               then UnknownWrites(nodes[..k], insts) + UnknownWritesFor(nodes[k].name)
               else UnknownWrites(nodes[..k], insts)
  {
    assert nodes[..k + 1][..k] == nodes[..k];
    assert UnknownWrites(nodes[..k], insts) + [] == UnknownWrites(nodes[..k], insts);
  }

  predicate IsAbout(w: NodeWrite, host: string, kind: NodeConditionType) { w.host == host && w.kind == kind }

  lemma LastOfThree(a: NodeWrite, b: NodeWrite, c: NodeWrite, host: string, kind: NodeConditionType)
    ensures LastStatus([a, b, c], host, kind)
            == if IsAbout(c, host, kind) then Some(c.status)
               else if IsAbout(b, host, kind) then Some(b.status)
               else if IsAbout(a, host, kind) then Some(a.status) else None
  {
    LastStatusConcat([a], [b], host, kind);
    LastStatusConcat([a] + [b], [c], host, kind);
    assert [a] + [b] + [c] == [a, b, c];
  }

  lemma LastOfFour(a: NodeWrite, b: NodeWrite, c: NodeWrite, d: NodeWrite, host: string, kind: NodeConditionType)
    ensures LastStatus([a, b, c, d], host, kind)
            == if IsAbout(d, host, kind) then Some(d.status) else LastStatus([a, b, c], host, kind)
  {
    LastStatusConcat([a, b, c], [d], host, kind);
    assert [a, b, c] + [d] == [a, b, c, d];
  }

  lemma LastOfUnknown(name: string, host: string, kind: NodeConditionType)
    ensures LastStatus(UnknownWritesFor(name), host, kind) == if host == name then Some(Unknown) else None
  {
    var ws := UnknownWritesFor(name);
    LastOfThree(ws[0], ws[1], ws[2], host, kind);
    LastOfFour(ws[0], ws[1], ws[2], ws[3], host, kind);
  }

  lemma {:induction false} UnknownExactly(nodes: seq<NodeStatus>, insts: seq<Instance>, host: string,
                                          kind: NodeConditionType)
    ensures LastStatus(UnknownWrites(nodes, insts), host, kind)
            == if host in NodeNames(nodes) && GetInstance(insts, host).None? then Some(Unknown) else None
    ensures forall w :: w in UnknownWrites(nodes, insts) ==> w.host in NodeNames(nodes)
  {
    if nodes != [] {
      var prefix, n := nodes[..|nodes| - 1], nodes[|nodes| - 1];
      assert nodes == prefix + [n];
      assert NodeNames(nodes) == NodeNames(prefix) + {n.name};
      UnknownExactly(prefix, insts, host, kind);
      LastOfUnknown(n.name, host, kind);
      LastStatusConcat(UnknownWrites(prefix, insts), UnknownWritesFor(n.name), host, kind);
      assert UnknownWrites(prefix, insts) + [] == UnknownWrites(prefix, insts);
    }
  }

  /* ---- nodes left behind by a scale-down ---- */

  predicate ShouldRemoveOldNode(name: string, annotationVersion: Option<string>) {
    annotationVersion == Some(UPGRADED_FROM_03) && Contains(name, OLD_NODES_PART)
  }

  /** A node is kept when its ordinal cannot be read, or is desired and the name is not an old one. */
  predicate KeepsName(name: string, replicas: int, annotationVersion: Option<string>) {
    var index := IndexInSts(name);
    index.None? || (!ShouldRemoveOldNode(name, annotationVersion) && index.value < replicas)
  }

  function Kept(nodes: seq<NodeStatus>, replicas: int, annotationVersion: Option<string>): seq<NodeStatus> {
    Filter((n: NodeStatus) => KeepsName(n.name, replicas, annotationVersion), nodes)
  }

  lemma KeptSnoc(nodes: seq<NodeStatus>, replicas: int, annotationVersion: Option<string>, n: NodeStatus)
    ensures Kept(nodes + [n], replicas, annotationVersion)
            == Kept(nodes, replicas, annotationVersion)
               + if KeepsName(n.name, replicas, annotationVersion) then [n] else []
  {
    FilterSnoc((x: NodeStatus) => KeepsName(x.name, replicas, annotationVersion), nodes, n);
  }

  /** How far an in-place compaction has got: positions below `valid` hold what is kept of the first `k`
      nodes, and positions from `k` on are untouched. */
  predicate Compacting(current: seq<NodeStatus>, nodes: seq<NodeStatus>, k: nat, valid: nat, replicas: int,
                       annotationVersion: Option<string>) {
    && valid <= k <= |nodes| == |current|
    && current[k..] == nodes[k..]
    && current[..valid] == Kept(nodes[..k], replicas, annotationVersion)
  }

  lemma CompactingStep(current: seq<NodeStatus>, nodes: seq<NodeStatus>, k: nat, valid: nat, replicas: int,
                       annotationVersion: Option<string>)
    requires Compacting(current, nodes, k, valid, replicas, annotationVersion) && k < |nodes|
    ensures if KeepsName(current[k].name, replicas, annotationVersion)
            then Compacting(current[valid := current[k]], nodes, k + 1, valid + 1, replicas, annotationVersion)
            else Compacting(current, nodes, k + 1, valid, replicas, annotationVersion)
  {
    hide Kept, KeepsName;
    assert current[k] == current[k..][0] == nodes[k];
    assert nodes[..k + 1] == nodes[..k] + [nodes[k]];
    KeptSnoc(nodes[..k], replicas, annotationVersion, nodes[k]);
    assert current[k + 1..] == current[k..][1..] == nodes[k + 1..];
    Moved(current, k, valid);
  }

  lemma Moved(current: seq<NodeStatus>, k: nat, valid: nat)
    requires valid <= k < |current|
    ensures var moved := current[valid := current[k]];
            moved[..valid + 1] == current[..valid] + [current[k]] && moved[k + 1..] == current[k + 1..]
  {
  }

  /** Dropping nodes changes nothing about the kept ones. */
  lemma {:induction false} KeptExactly(nodes: seq<NodeStatus>, replicas: int, annotationVersion: Option<string>)
    requires WellFormed(nodes)
    ensures WellFormed(Kept(nodes, replicas, annotationVersion))
    ensures forall n :: n in Kept(nodes, replicas, annotationVersion) <==>
                        n in nodes && KeepsName(n.name, replicas, annotationVersion)
  {
    if nodes != [] {
      var prefix, n := nodes[..|nodes| - 1], nodes[|nodes| - 1];
      assert nodes == prefix + [n];
      assert WellFormed(prefix) by { assert forall x :: x in prefix ==> x in nodes; }
      KeptExactly(prefix, replicas, annotationVersion);
      KeptSnoc(prefix, replicas, annotationVersion, n);
    }
  }

  lemma CondOfMember(nodes: seq<NodeStatus>, n: NodeStatus, kind: NodeConditionType)
    requires WellFormed(nodes) && n in nodes
    ensures NodeCond(nodes, n.name, kind)
            == (var c := Find(n.conditions, kind); if c.Some? then Some(c.value.status) else None)
  {
    var i :| 0 <= i < |nodes| && nodes[i] == n;
    NodeIndexIs(nodes, n.name, i);
  }

  /** The conditions of a kept node are as before; a dropped node has none. */
  lemma KeptCond(nodes: seq<NodeStatus>, replicas: int, annotationVersion: Option<string>, host: string,
                 kind: NodeConditionType)
    requires WellFormed(nodes)
    ensures NodeCond(Kept(nodes, replicas, annotationVersion), host, kind)
            == if KeepsName(host, replicas, annotationVersion) then NodeCond(nodes, host, kind) else None
  {
    var kept := Kept(nodes, replicas, annotationVersion);
    KeptExactly(nodes, replicas, annotationVersion);
    var i, k := NodeIndex(nodes, host), NodeIndex(kept, host);
    if k < |kept| {
      assert kept[k] in kept;
      CondOfMember(nodes, kept[k], kind);
    } else if i < |nodes| {
      assert nodes[i] in nodes;
    }
  }

  /** Of a cluster's own pods (their ordinals are 32-bit) the compaction keeps exactly those with a desired ordinal
      and no old name. Without plain names it recognises none, and keeps them all. */
  lemma OwnPodsAreKeptByOrdinal(name: string, namespace: string, ordinal: nat, replicas: int,
                                annotationVersion: Option<string>)
    requires ordinal < 0x8000_0000
    ensures var host := PodHostname(name, namespace, ordinal);
            KeepsName(host, replicas, annotationVersion) <==>
            !PlainNames(name, namespace) || (ordinal < replicas && !ShouldRemoveOldNode(host, annotationVersion))
  {
    OrdinalRoundTrip(name, namespace, ordinal);
  }

  /* ---- nodes that Orchestrator reports ---- */

  function BoolStatus(b: bool): ConditionStatus { if b then True else False }

  predicate IsMasterHost(master: Option<Instance>, host: string) {
    master.Some? && host == master.value.key.hostname
  }

  function LagStatus(node: Instance, master: Option<Instance>, maxSlaveLatency: int): ConditionStatus {
    if IsMasterHost(master, node.key.hostname) then False
    else if node.slaveLag.None? then Unknown
    else BoolStatus(node.slaveLag.value > maxSlaveLatency)
  }

  function StaleWritesFor(host: string): seq<NodeWrite> {
    [NodeWrite(host, Lagged, Unknown), NodeWrite(host, Replicating, Unknown), NodeWrite(host, Master, Unknown)]
  }

  /** The writes for one reported instance. */
  function ReportWritesFor(node: Instance, master: Option<Instance>, maxSlaveLatency: int): seq<NodeWrite> {
    var host := node.key.hostname;
    if node.isRecentlyChecked then
      [NodeWrite(host, Lagged, LagStatus(node, master, maxSlaveLatency)),
       NodeWrite(host, Replicating, BoolStatus(node.sqlRunning && node.ioRunning)),
       NodeWrite(host, Master, BoolStatus(IsMasterHost(master, host))),
       NodeWrite(host, ReadOnly, BoolStatus(node.readOnly))]
    else if !node.isLastCheckValid then StaleWritesFor(host)
    else []
  }

  function ReportWrites(insts: seq<Instance>, master: Option<Instance>, maxSlaveLatency: int): seq<NodeWrite> {
    if insts == [] then []
    else ReportWrites(insts[..|insts| - 1], master, maxSlaveLatency)
         + ReportWritesFor(insts[|insts| - 1], master, maxSlaveLatency)
  }

  /** What a report says about one condition of the node it is for; None when it leaves it alone. */
  function Reported(node: Instance, master: Option<Instance>, maxSlaveLatency: int,
                    kind: NodeConditionType): Option<ConditionStatus> {
    if node.isRecentlyChecked then
      match kind
      case Lagged => Some(LagStatus(node, master, maxSlaveLatency))
      case Replicating => Some(BoolStatus(node.sqlRunning && node.ioRunning))
      case Master => Some(BoolStatus(IsMasterHost(master, node.key.hostname)))
      case ReadOnly => Some(BoolStatus(node.readOnly))
    else if !node.isLastCheckValid && kind != ReadOnly then Some(Unknown)
    else None
  }

  lemma LastOfReport(node: Instance, master: Option<Instance>, maxSlaveLatency: int, host: string,
                     kind: NodeConditionType)
    ensures LastStatus(ReportWritesFor(node, master, maxSlaveLatency), host, kind)
            == if host == node.key.hostname then Reported(node, master, maxSlaveLatency, kind) else None
  {
    var ws := ReportWritesFor(node, master, maxSlaveLatency);
    if node.isRecentlyChecked {
      LastOfFour(ws[0], ws[1], ws[2], ws[3], host, kind);
      LastOfThree(ws[0], ws[1], ws[2], host, kind);
    } else if !node.isLastCheckValid {
      LastOfThree(ws[0], ws[1], ws[2], host, kind);
    }
  }

  /** After a whole report every condition of a reported node is what its instance says, and nothing is
      written about other nodes. */
  lemma {:induction false} ReportExactly(insts: seq<Instance>, master: Option<Instance>, maxSlaveLatency: int,
                                         host: string, kind: NodeConditionType)
    requires DistinctHosts(insts)
    ensures var inst := GetInstance(insts, host);
            LastStatus(ReportWrites(insts, master, maxSlaveLatency), host, kind)
            == if inst.Some? then Reported(inst.value, master, maxSlaveLatency, kind) else None
  {
    if insts != [] {
      var prefix, node := insts[..|insts| - 1], insts[|insts| - 1];
      assert insts == prefix + [node];
      ReportExactly(prefix, master, maxSlaveLatency, host, kind);
      LastOfReport(node, master, maxSlaveLatency, host, kind);
      LastStatusConcat(ReportWrites(prefix, master, maxSlaveLatency), ReportWritesFor(node, master, maxSlaveLatency),
                       host, kind);
      var inst := GetInstance(insts, host);
      if host == node.key.hostname {
        SameKeySameInstance(insts, inst.value, node);
      } else if inst.Some? {
        assert inst.value in prefix;
        SameKeySameInstance(prefix, GetInstance(prefix, host).value, inst.value);
      }
    }
  }

  /* ---- one pass over the node list ---- */

  /** The node list after a pass: mark the unreported nodes, drop the ones left behind, take over the
      report. */
  function NodesAfterPass(nodes: seq<NodeStatus>, replicas: int, annotationVersion: Option<string>,
                          insts: seq<Instance>, master: Option<Instance>, maxSlaveLatency: int,
                          now: int): seq<NodeStatus> {
    ApplyWrites(Kept(ApplyWrites(nodes, UnknownWrites(nodes, insts), now), replicas, annotationVersion),
                ReportWrites(insts, master, maxSlaveLatency), now)
  }

  /** Orchestrator has not checked the instance recently, but its last check was valid. */
  predicate Skipped(inst: Instance) { !inst.isRecentlyChecked && inst.isLastCheckValid }

  /** Names are kept as nodes are. */
  lemma KeptNames(nodes: seq<NodeStatus>, replicas: int, annotationVersion: Option<string>, host: string)
    ensures host in NodeNames(Kept(nodes, replicas, annotationVersion)) <==>
            host in NodeNames(nodes) && KeepsName(host, replicas, annotationVersion)
  {
    var keep := (n: NodeStatus) => KeepsName(n.name, replicas, annotationVersion);
    hide KeepsName;
    if host in NodeNames(Kept(nodes, replicas, annotationVersion)) {
      var n :| n in Filter(keep, nodes) && n.name == host;
      FilterMember(keep, nodes, n);
    }
    if host in NodeNames(nodes) && KeepsName(host, replicas, annotationVersion) {
      var n :| n in nodes && n.name == host;
      FilterMember(keep, nodes, n);
    }
  }

  /** A report writes to the host of an instance. */
  ghost predicate WritesTo(insts: seq<Instance>, host: string) {
    exists x :: x in insts && x.key.hostname == host && !Skipped(x)
  }

  lemma {:induction false} ReportHosts(insts: seq<Instance>, master: Option<Instance>, maxSlaveLatency: int,
                                       host: string)
    ensures (exists w :: w in ReportWrites(insts, master, maxSlaveLatency) && w.host == host) <==> WritesTo(insts, host)
  {
    if insts != [] {
      var prefix, last := insts[..|insts| - 1], insts[|insts| - 1];
      assert forall x :: x in insts <==> x in prefix || x == last;
      ReportHosts(prefix, master, maxSlaveLatency, host);
      hide LagStatus, BoolStatus;
      var ws := ReportWritesFor(last, master, maxSlaveLatency);
      assert forall w :: w in ws ==> w.host == last.key.hostname;
      assert ws != [] <==> !Skipped(last);
      if ws != [] { assert ws[0] in ws; }
      assert forall w :: w in ReportWrites(insts, master, maxSlaveLatency) <==>
                         w in ReportWrites(prefix, master, maxSlaveLatency) || w in ws;
    }
  }

  /** The nodes listed after a pass: those that were and are kept, and those that the report wrote to. */
  lemma NamesAfterPass(nodes: seq<NodeStatus>, replicas: int, annotationVersion: Option<string>,
                       insts: seq<Instance>, master: Option<Instance>, maxSlaveLatency: int, now: int, host: string)
    ensures host in NodeNames(NodesAfterPass(nodes, replicas, annotationVersion, insts, master, maxSlaveLatency, now))
            <==>
            (host in NodeNames(nodes) && KeepsName(host, replicas, annotationVersion)) || WritesTo(insts, host)
  {
    hide KeepsName, Kept, ReportWrites, UnknownWrites, WritesTo, ApplyWrites, WellFormed, NodeCond;
    var unknown := UnknownWrites(nodes, insts);
    var marked := ApplyWrites(nodes, unknown, now);
    UnknownExactly(nodes, insts, host, Master);
    LastWriteWins(nodes, unknown, now, host, Master);
    assert NodeNames(marked) == NodeNames(nodes);
    KeptNames(marked, replicas, annotationVersion, host);
    ReportHosts(insts, master, maxSlaveLatency, host);
    LastWriteWins(Kept(marked, replicas, annotationVersion), ReportWrites(insts, master, maxSlaveLatency), now, host,
                  Master);
  }

  /** Every condition of every node after a pass: what the report says; failing that, Unknown for a
      listed node that is not reported; failing that, what it was. A node left behind has none. */
  lemma CondAfterPass(nodes: seq<NodeStatus>, replicas: int, annotationVersion: Option<string>,
                      insts: seq<Instance>, master: Option<Instance>, maxSlaveLatency: int, now: int,
                      host: string, kind: NodeConditionType)
    requires WellFormed(nodes) && DistinctHosts(insts)
    ensures var after := NodesAfterPass(nodes, replicas, annotationVersion, insts, master, maxSlaveLatency, now);
            var inst := GetInstance(insts, host);
            var reported := if inst.Some? then Reported(inst.value, master, maxSlaveLatency, kind) else None;
            WellFormed(after) &&
            NodeCond(after, host, kind)
            == if reported.Some? then reported
               else if !KeepsName(host, replicas, annotationVersion) then None
               else if host in NodeNames(nodes) && inst.None? then Some(Unknown)
               else NodeCond(nodes, host, kind)
  {
    var unknown := UnknownWrites(nodes, insts);
    var marked := ApplyWrites(nodes, unknown, now);
    UnknownExactly(nodes, insts, host, kind);
    LastWriteWins(nodes, unknown, now, host, kind);
    KeptCond(marked, replicas, annotationVersion, host, kind);
    KeptExactly(marked, replicas, annotationVersion);
    ReportExactly(insts, master, maxSlaveLatency, host, kind);
    LastWriteWins(Kept(marked, replicas, annotationVersion), ReportWrites(insts, master, maxSlaveLatency), now, host,
                  kind);
  }

  /** The master condition of every node after a pass: an instance that was skipped keeps it, any other
      node has it exactly when it was checked recently and is the master the pass was given. */
  lemma MasterAfterPass(nodes: seq<NodeStatus>, replicas: int, annotationVersion: Option<string>,
                        insts: seq<Instance>, master: Option<Instance>, maxSlaveLatency: int, now: int, host: string)
    requires WellFormed(nodes) && DistinctHosts(insts)
    ensures var after := NodesAfterPass(nodes, replicas, annotationVersion, insts, master, maxSlaveLatency, now);
            var inst := GetInstance(insts, host);
            IsMaster(after, host) <==>
            inst.Some? &&
            if Skipped(inst.value) then IsMaster(nodes, host) && KeepsName(host, replicas, annotationVersion)
            else inst.value.isRecentlyChecked && IsMasterHost(master, host)
  {
    hide NodesAfterPass, KeepsName, GetInstance, WellFormed;
    CondAfterPass(nodes, replicas, annotationVersion, insts, master, maxSlaveLatency, now, host, Master);
    if IsMaster(nodes, host) {
      assert nodes[NodeIndex(nodes, host)] in nodes;
    }
  }

  /** When no reported instance is in the skipped state, a pass leaves at most one node marked master,
      and that node is the master the pass was given. */
  lemma AtMostOneMaster(nodes: seq<NodeStatus>, replicas: int, annotationVersion: Option<string>,
                        insts: seq<Instance>, master: Option<Instance>, maxSlaveLatency: int, now: int, a: string,
                        b: string)
    requires WellFormed(nodes) && DistinctHosts(insts)
    requires forall x :: x in insts ==> !Skipped(x)
    requires var after := NodesAfterPass(nodes, replicas, annotationVersion, insts, master, maxSlaveLatency, now);
             IsMaster(after, a) && IsMaster(after, b)
    ensures a == b && master.Some? && a == master.value.key.hostname
  {
    MasterAfterPass(nodes, replicas, annotationVersion, insts, master, maxSlaveLatency, now, a);
    MasterAfterPass(nodes, replicas, annotationVersion, insts, master, maxSlaveLatency, now, b);
  }

  /* ---- the same in the fields of the instances ---- */

  /** What a report says of each condition. A node checked recently is lagging when it is not the given master and is
      further behind than allowed; replicating when both of its threads run; master when it has the host of the given
      master. Of one whose last check failed, all but its read-only flag is unknown; of any other, nothing is said. */
  lemma ReportedByFields(node: Instance, master: Option<Instance>, maxSlaveLatency: int)
    ensures var given := master.Some? && node.key.hostname == master.value.key.hostname;
            if node.isRecentlyChecked then
              && Reported(node, master, maxSlaveLatency, Lagged)
                 == Some(if given then False
                         else match node.slaveLag
                              case None => Unknown
                              case Some(lag) => if lag <= maxSlaveLatency then False else True)
              && Reported(node, master, maxSlaveLatency, Replicating)
                 == Some(if node.sqlRunning && node.ioRunning then True else False)
              && Reported(node, master, maxSlaveLatency, Master) == Some(if given then True else False)
              && Reported(node, master, maxSlaveLatency, ReadOnly) == Some(if node.readOnly then True else False)
            else
              && Reported(node, master, maxSlaveLatency, ReadOnly) == None
              && forall kind :: kind != ReadOnly ==>
                   Reported(node, master, maxSlaveLatency, kind)
                   == if node.isLastCheckValid then None else Some(Unknown)
  {
  }

  lemma ContainsExactly(s: string, part: string)
    ensures Contains(s, part) <==> exists a, b :: s == a + part + b
  {
    if i: nat :| i <= |s| && PartAt(s, part, i) { assert s == s[..i] + part + s[i + |part|..]; }
    if a, b :| s == a + part + b {
      assert s[|a|..|a| + |part|] == part;
      assert PartAt(s, part, |a|);
    }
  }

  /** A node is kept when no ordinal can be read from its name, or the ordinal is desired; except that a cluster whose
      version annotation is 300 drops the names of its old headless service. */
  lemma KeptByName(name: string, replicas: int, annotationVersion: Option<string>)
    ensures KeepsName(name, replicas, annotationVersion) <==>
            match IndexInSts(name)
            case None => true
            case Some(i) =>
              i < replicas && !(annotationVersion == Some("300") && exists a, b :: name == a + "-mysql-nodes" + b)
  {
    ContainsExactly(name, "-mysql-nodes");
    hide IndexInSts;
  }
}
