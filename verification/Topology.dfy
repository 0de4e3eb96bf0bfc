/** Finding the master of a replication topology by following master links. */
module Topology {
  import opened Common

  datatype InstanceKey = InstanceKey(hostname: string, port: int)

  /** An instance as Orchestrator reports it. `slaveLag` and `lastSeen` are None when not valid. */
  datatype Instance = Instance(key: InstanceKey, masterKey: InstanceKey, isCoMaster: bool, isDetachedMaster: bool,
                               readOnly: bool, sqlRunning: bool, ioRunning: bool, slaveLag: Option<int>,
                               isLastCheckValid: bool, isUpToDate: bool, isRecentlyChecked: bool,
                               lastSeen: Option<int>, uptime: nat)

  /** No two instances have the same hostname. */
  predicate DistinctHosts(insts: seq<Instance>) {
    forall i, j :: 0 <= i < j < |insts| ==> insts[i].key.hostname != insts[j].key.hostname
  }

  /** The first instance with the given hostname. */
  function GetInstance(insts: seq<Instance>, host: string): (r: Option<Instance>)
    ensures r.Some? ==> r.value in insts && r.value.key.hostname == host
    ensures r.None? <==> forall x :: x in insts ==> x.key.hostname != host
  {
    if insts == [] then None
    else if insts[0].key.hostname == host then Some(insts[0])
    else
      assert forall x :: x in insts <==> x == insts[0] || x in insts[1..];
      GetInstance(insts[1..], host)
  }

  function Keys(insts: seq<Instance>): set<InstanceKey> { set x | x in insts :: x.key }

  /** The node has a master link that is followed. */
  predicate Follows(node: Instance) {
    node.masterKey.hostname != "" && !node.isCoMaster && !node.isDetachedMaster
  }

  /** The master of `node`: follow its link while there is one, and give up on a key seen before. */
  function GetMasterForNode(insts: seq<Instance>, node: Instance, visited: seq<Instance>): Option<Instance>
    decreases Keys(insts) + {node.key} - Keys(visited)
  {
    if node.key in Keys(visited) then None
    else
      var visited' := visited + [node];
      if Follows(node) then
        var master := GetInstance(insts, node.masterKey.hostname);
        if master.Some? then
          assert node.key in Keys(visited');
          assert Keys(insts) + {master.value.key} - Keys(visited') < Keys(insts) + {node.key} - Keys(visited) by {
            assert Keys(visited') == Keys(visited) + {node.key};
            assert node.key !in Keys(insts) + {master.value.key} - Keys(visited');
          }
          GetMasterForNode(insts, master.value, visited')
        else None
      else if node.isCoMaster then GetInstance(insts, node.masterKey.hostname)
      else Some(node)
  }

  /* ---- walks: the same thing without a visited list ---- */

  /** The instance that the link of `node` leads to. */
  function Next(insts: seq<Instance>, node: Instance): Option<Instance> {
    if Follows(node) then GetInstance(insts, node.masterKey.hostname) else None
  }

  ghost predicate LinkAt(insts: seq<Instance>, walk: seq<Instance>, i: nat)
    requires i + 1 < |walk|
  {
    Next(insts, walk[i]) == Some(walk[i + 1])
  }

  /** `walk` follows master links one after the other. */
  ghost predicate Walk(insts: seq<Instance>, walk: seq<Instance>) {
    walk != [] && forall i :: 0 <= i < |walk| - 1 ==> LinkAt(insts, walk, i)
  }

  function Last(walk: seq<Instance>): Instance
    requires walk != []
  {
    walk[|walk| - 1]
  }

  /** What a node without a followed link stands for. */
  function Outcome(insts: seq<Instance>, node: Instance): Option<Instance>
    requires !Follows(node)
  {
    if node.isCoMaster then GetInstance(insts, node.masterKey.hostname) else Some(node)
  }

  /** Some walk from `node` ends at a node without a followed link, which stands for `m`. */
  ghost predicate LeadsTo(insts: seq<Instance>, node: Instance, m: Instance) {
    exists walk :: Walk(insts, walk) && walk[0] == node && !Follows(Last(walk)) && Outcome(insts, Last(walk)) == Some(m)
  }

  /** Some walk from `node` comes back to a node it has passed. */
  ghost predicate Cycles(insts: seq<Instance>, node: Instance) {
    exists walk, i: nat :: Walk(insts, walk) && walk[0] == node && i < |walk| - 1 && walk[i] == Last(walk)
  }

  /** Some walk from `node` ends at a link that leads out of the list. */
  ghost predicate LeavesTheList(insts: seq<Instance>, node: Instance) {
    exists walk :: Walk(insts, walk) && walk[0] == node && Follows(Last(walk)) && Next(insts, Last(walk)) == None
  }

  /** Some walk from `node` ends at a co-master whose partner is absent. */
  ghost predicate PartnerAbsent(insts: seq<Instance>, node: Instance) {
    exists walk :: Walk(insts, walk) && walk[0] == node && !Follows(Last(walk)) && Outcome(insts, Last(walk)) == None
  }

  lemma WalkExtends(insts: seq<Instance>, walk: seq<Instance>, next: Instance)
    requires Walk(insts, walk) && Next(insts, Last(walk)) == Some(next)
    ensures Walk(insts, walk + [next])
  {
    var w := walk + [next];
    forall i | 0 <= i < |w| - 1 ensures LinkAt(insts, w, i) {
      if i < |walk| - 1 { assert LinkAt(insts, walk, i); }
    }
  }

  /** The recursion, started anywhere along a walk without repetitions, ends in one of four ways. */
  lemma {:induction false} FollowEndsInOneOfFour(insts: seq<Instance>, walk: seq<Instance>)
    requires DistinctHosts(insts) && Walk(insts, walk) && forall x :: x in walk ==> x in insts
    ensures var r := GetMasterForNode(insts, Last(walk), walk[..|walk| - 1]);
            if r.Some? then LeadsTo(insts, walk[0], r.value)
            else Cycles(insts, walk[0]) || LeavesTheList(insts, walk[0]) || PartnerAbsent(insts, walk[0])
    decreases Keys(insts) + {Last(walk).key} - Keys(walk[..|walk| - 1])
  {
    var visited := walk[..|walk| - 1];
    var node := Last(walk);
    assert walk == visited + [node];
    if node.key in Keys(visited) {
      var x :| x in visited && x.key == node.key;
      var i :| 0 <= i < |visited| && visited[i] == x;
      SameKeySameInstance(insts, x, node);
      assert walk[i] == Last(walk);
    } else if Follows(node) {
      var master := GetInstance(insts, node.masterKey.hostname);
      if master.Some? {
        WalkExtends(insts, walk, master.value);
        assert (walk + [master.value])[..|walk|] == walk;
        assert Keys(walk) == Keys(visited) + {node.key};
        assert node.key !in Keys(insts) + {master.value.key} - Keys(walk);
        FollowEndsInOneOfFour(insts, walk + [master.value]);
      }
    }
  }

  lemma SameKeySameInstance(insts: seq<Instance>, x: Instance, y: Instance)
    requires DistinctHosts(insts) && x in insts && y in insts && x.key.hostname == y.key.hostname
    ensures x == y
  {
  }

  /** Two walks from the same node agree as far as they both go. */
  lemma {:induction false} WalksAgree(insts: seq<Instance>, v: seq<Instance>, w: seq<Instance>, k: nat)
    requires Walk(insts, v) && Walk(insts, w) && v[0] == w[0] && k < |v| && k < |w|
    ensures v[k] == w[k]
  {
    if k > 0 {
      WalksAgree(insts, v, w, k - 1);
      assert LinkAt(insts, v, k - 1) && LinkAt(insts, w, k - 1);
    }
  }

  /** A walk that has repeated itself can be read on for ever: every longer walk stays in the loop, so
      every node on any walk from there still follows a link that stays in the list. */
  lemma {:induction false} LoopGoesOn(insts: seq<Instance>, loop: seq<Instance>, i: nat, w: seq<Instance>, k: nat)
    requires Walk(insts, loop) && i < |loop| - 1 && loop[i] == Last(loop)
    requires Walk(insts, w) && w[0] == loop[0] && k < |w|
    ensures exists j :: 0 <= j < |loop| - 1 && w[k] == loop[j]
  {
    if k == 0 {
      assert w[0] == loop[0];
    } else {
      LoopGoesOn(insts, loop, i, w, k - 1);
      var j :| 0 <= j < |loop| - 1 && w[k - 1] == loop[j];
      assert LinkAt(insts, w, k - 1) && LinkAt(insts, loop, j);
      if j + 1 == |loop| - 1 { assert w[k] == loop[i]; } else { assert w[k] == loop[j + 1]; }
    }
  }

  /** The end of a walk without a next node is the only such end. */
  lemma EndIsUnique(insts: seq<Instance>, v: seq<Instance>, w: seq<Instance>)
    requires Walk(insts, v) && Walk(insts, w) && v[0] == w[0]
    requires Next(insts, Last(v)) == None && Next(insts, Last(w)) == None
    ensures Last(v) == Last(w)
  {
    if |v| < |w| {
      assert LinkAt(insts, w, |v| - 1);
      WalksAgree(insts, v, w, |v| - 1);
    } else if |w| < |v| {
      assert LinkAt(insts, v, |w| - 1);
      WalksAgree(insts, v, w, |w| - 1);
    } else {
      WalksAgree(insts, v, w, |v| - 1);
    }
  }

  lemma NoEndInALoop(insts: seq<Instance>, node: Instance, w: seq<Instance>)
    requires Cycles(insts, node) && Walk(insts, w) && w[0] == node
    ensures Next(insts, Last(w)) != None
  {
    var loop, i: nat :| Walk(insts, loop) && loop[0] == node && i < |loop| - 1 && loop[i] == Last(loop);
    LoopGoesOn(insts, loop, i, w, |w| - 1);
    var j :| 0 <= j < |loop| - 1 && Last(w) == loop[j];
    assert LinkAt(insts, loop, j);
  }

  /** The master found for a node of the list is exactly what its master links lead to. Nothing is
      found exactly when the links cycle, leave the list, or end at a co-master whose partner is
      absent, and these three exclude one another. */
  lemma MasterForNodeExactly(insts: seq<Instance>, node: Instance, m: Instance)
    requires DistinctHosts(insts) && node in insts
    ensures GetMasterForNode(insts, node, []) == Some(m) <==> LeadsTo(insts, node, m)
    ensures GetMasterForNode(insts, node, []) == None <==>
            Cycles(insts, node) || LeavesTheList(insts, node) || PartnerAbsent(insts, node)
    ensures !(Cycles(insts, node) && LeavesTheList(insts, node))
    ensures !(Cycles(insts, node) && PartnerAbsent(insts, node))
    ensures !(LeavesTheList(insts, node) && PartnerAbsent(insts, node))
  {
    var start := [node];
    assert Walk(insts, start) && start[..0] == [];
    FollowEndsInOneOfFour(insts, start);
    forall v, w | Walk(insts, v) && Walk(insts, w) && v[0] == node && w[0] == node
                  && Next(insts, Last(v)) == None && Next(insts, Last(w)) == None
      ensures Last(v) == Last(w)
    {
      EndIsUnique(insts, v, w);
    }
    if Cycles(insts, node) {
      forall w | Walk(insts, w) && w[0] == node ensures Next(insts, Last(w)) != None {
        NoEndInALoop(insts, node, w);
      }
    }
  }

  /* ---- the master of the whole list ---- */

  /** Every instance has the same master host as the first one. */
  predicate AllAgree(insts: seq<Instance>, host: string) {
    forall x :: x in insts ==>
      var r := GetMasterForNode(insts, x, []);
      r.Some? && r.value.key.hostname == host
  }

  function MasterOf(insts: seq<Instance>): Option<Instance> {
    if insts == [] then None
    else
      var first := GetMasterForNode(insts, insts[0], []);
      if first.Some? && AllAgree(insts, first.value.key.hostname) then first else None
  }

  method DetermineMaster(insts: seq<Instance>) returns (r: Option<Instance>)
    ensures r == MasterOf(insts)
  {
    var masterForNode: seq<Instance> := [];
    for i := 0 to |insts|
      invariant |masterForNode| == i
      invariant forall k :: 0 <= k < i ==> GetMasterForNode(insts, insts[k], []) == Some(masterForNode[k])
    {
      var master := GetMasterForNode(insts, insts[i], []);
      if master.None? {
        assert insts[i] in insts;
        return None;
      }
      masterForNode := masterForNode + [master.value];
    }
    if |masterForNode| != 0 {
      var first := masterForNode[0];
      for k := 0 to |masterForNode|
        invariant forall j :: 0 <= j < k ==> masterForNode[j].key.hostname == first.key.hostname
      {
        if masterForNode[k].key.hostname != first.key.hostname {
          assert insts[k] in insts;
          return None;
        }
      }
      return Some(first);
    }
    return None;
  }

  lemma {:induction false} WalkStays(insts: seq<Instance>, walk: seq<Instance>, k: nat)
    requires Walk(insts, walk) && walk[0] in insts && k < |walk|
    ensures walk[k] in insts
  {
    if k > 0 { assert LinkAt(insts, walk, k - 1); }
  }

  /** The master found for a node of the list is itself in the list. */
  lemma MasterIsListed(insts: seq<Instance>, node: Instance, m: Instance)
    requires DistinctHosts(insts) && node in insts && GetMasterForNode(insts, node, []) == Some(m)
    ensures m in insts
  {
    MasterForNodeExactly(insts, node, m);
    var walk :| Walk(insts, walk) && walk[0] == node && !Follows(Last(walk)) && Outcome(insts, Last(walk)) == Some(m);
    WalkStays(insts, walk, |walk| - 1);
  }

  /** The followed links form a tree over the list with root `m`: no link leaves the list, no walk comes
      back, and `m` is the only node without a followed link. */
  ghost predicate TreeWithRoot(insts: seq<Instance>, m: Instance) {
    && m in insts && !Follows(m)
    && (forall x :: x in insts && !Follows(x) ==> x == m)
    && (forall x :: x in insts ==> !Cycles(insts, x) && !LeavesTheList(insts, x))
  }

  predicate NoCoMasters(insts: seq<Instance>) { forall x :: x in insts ==> !x.isCoMaster }

  /** Without co-masters, a node's links lead to a root of the list or to nothing. */
  lemma RootWithoutCoMasters(insts: seq<Instance>, node: Instance)
    requires DistinctHosts(insts) && NoCoMasters(insts) && node in insts
    ensures !PartnerAbsent(insts, node)
    ensures forall m :: LeadsTo(insts, node, m) ==> m in insts && !Follows(m)
  {
    forall walk | Walk(insts, walk) && walk[0] == node ensures Last(walk) in insts {
      WalkStays(insts, walk, |walk| - 1);
    }
  }

  /** DetermineMaster returns `m` exactly when the list is a tree of followed links with root `m`. */
  lemma DeterminedExactlyForTrees(insts: seq<Instance>, m: Instance)
    requires DistinctHosts(insts) && NoCoMasters(insts)
    ensures MasterOf(insts) == Some(m) <==> TreeWithRoot(insts, m)
  {
    if TreeWithRoot(insts, m) {
      forall x | x in insts ensures GetMasterForNode(insts, x, []) == Some(m) {
        TreeLeadsToRoot(insts, m, x);
      }
    }
    if MasterOf(insts) == Some(m) {
      forall x | x in insts ensures GetMasterForNode(insts, x, []) == Some(m) {
        AgreedMasterIsTheSame(insts, m, x);
      }
      DeterminedImpliesTree(insts, m);
    }
  }

  lemma TreeLeadsToRoot(insts: seq<Instance>, m: Instance, x: Instance)
    requires DistinctHosts(insts) && NoCoMasters(insts) && TreeWithRoot(insts, m) && x in insts
    ensures GetMasterForNode(insts, x, []) == Some(m)
  {
    MasterForNodeExactly(insts, x, m);
    RootWithoutCoMasters(insts, x);
    var r := GetMasterForNode(insts, x, []);
    MasterForNodeExactly(insts, x, r.value);
  }

  lemma AgreedMasterIsTheSame(insts: seq<Instance>, m: Instance, x: Instance)
    requires DistinctHosts(insts) && MasterOf(insts) == Some(m) && x in insts
    ensures GetMasterForNode(insts, x, []) == Some(m)
  {
    var r := GetMasterForNode(insts, x, []);
    MasterIsListed(insts, x, r.value);
    MasterIsListed(insts, insts[0], m);
    SameKeySameInstance(insts, r.value, m);
  }

  lemma DeterminedImpliesTree(insts: seq<Instance>, m: Instance)
    requires DistinctHosts(insts) && NoCoMasters(insts) && insts != []
    requires forall x :: x in insts ==> GetMasterForNode(insts, x, []) == Some(m)
    ensures TreeWithRoot(insts, m)
  {
    MasterForNodeExactly(insts, insts[0], m);
    RootWithoutCoMasters(insts, insts[0]);
    forall x | x in insts
      ensures !Cycles(insts, x) && !LeavesTheList(insts, x) && (!Follows(x) ==> x == m)
    {
      MasterForNodeExactly(insts, x, m);
      if !Follows(x) {
        assert Walk(insts, [x]) && Last([x]) == x;
        MasterForNodeExactly(insts, x, x);
      }
    }
  }

  /* ---- the same in the fields of the instances ---- */

  /** Each instance of the chain is listed, and names the next one as its master. */
  ghost predicate HostChain(insts: seq<Instance>, chain: seq<Instance>) {
    && chain != [] && (forall x :: x in chain ==> x in insts)
    && forall i :: 0 <= i < |chain| - 1 ==> NamesNext(chain, i)
  }

  ghost predicate NamesNext(chain: seq<Instance>, i: nat)
    requires i + 1 < |chain|
  {
    chain[i].masterKey.hostname == chain[i + 1].key.hostname
  }

  ghost predicate ChainReaches(insts: seq<Instance>, x: Instance, m: Instance) {
    exists chain :: HostChain(insts, chain) && chain[0] == x && chain[|chain| - 1] == m
  }

  /** A chain of named masters whose instances, up to the last, have a master name and are not detached, is a walk. */
  lemma ChainIsWalk(insts: seq<Instance>, chain: seq<Instance>)
    requires DistinctHosts(insts) && NoCoMasters(insts) && HostChain(insts, chain)
    requires forall i :: 0 <= i < |chain| - 1 ==> chain[i].masterKey.hostname != "" && !chain[i].isDetachedMaster
    ensures Walk(insts, chain)
  {
    forall i | 0 <= i < |chain| - 1 ensures LinkAt(insts, chain, i) {
      assert NamesNext(chain, i) && chain[i] in chain && chain[i + 1] in chain;
      SameKeySameInstance(insts, GetInstance(insts, chain[i].masterKey.hostname).value, chain[i + 1]);
    }
  }

  /** A chain to `m` has a part that ends at the first `m`. */
  lemma {:induction false} FirstReach(insts: seq<Instance>, chain: seq<Instance>, m: Instance)
    returns (r: seq<Instance>)
    requires HostChain(insts, chain) && chain[|chain| - 1] == m
    ensures HostChain(insts, r) && r[0] == chain[0] && r[|r| - 1] == m
    ensures forall i :: 0 <= i < |r| - 1 ==> r[i] != m
    decreases |chain|
  {
    if i: nat :| i < |chain| - 1 && chain[i] == m {
      var prefix := chain[..i + 1];
      forall k | 0 <= k < |prefix| - 1 ensures NamesNext(prefix, k) { assert NamesNext(chain, k); }
      r := FirstReach(insts, prefix, m);
    } else {
      r := chain;
    }
  }

  lemma WalkIsChain(insts: seq<Instance>, walk: seq<Instance>)
    requires Walk(insts, walk) && walk[0] in insts
    ensures HostChain(insts, walk)
  {
    forall k | 0 <= k < |walk| ensures walk[k] in insts { WalkStays(insts, walk, k); }
    forall i | 0 <= i < |walk| - 1 ensures NamesNext(walk, i) { assert LinkAt(insts, walk, i); }
  }

  /** Without co-masters `m` is determined exactly when it is the one instance that names no master or is detached,
      and from every instance the named masters, all of them listed, lead to `m`. */
  lemma DeterminedByFields(insts: seq<Instance>, m: Instance)
    requires DistinctHosts(insts) && forall x :: x in insts ==> !x.isCoMaster
    ensures MasterOf(insts) == Some(m) <==>
            && m in insts
            && (forall x :: x in insts ==> (x.masterKey.hostname == "" || x.isDetachedMaster <==> x == m))
            && (forall x :: x in insts ==> ChainReaches(insts, x, m))
  {
    DeterminedExactlyForTrees(insts, m);
    if MasterOf(insts) == Some(m) {
      forall x | x in insts ensures ChainReaches(insts, x, m) {
        AgreedMasterIsTheSame(insts, m, x);
        MasterForNodeExactly(insts, x, m);
        var walk :| Walk(insts, walk) && walk[0] == x && !Follows(Last(walk)) && Outcome(insts, Last(walk)) == Some(m);
        WalkIsChain(insts, walk);
        assert Last(walk) in walk;
      }
    } else if && m in insts
              && (forall x :: x in insts ==> (x.masterKey.hostname == "" || x.isDetachedMaster <==> x == m))
              && (forall x :: x in insts ==> ChainReaches(insts, x, m)) {
      forall x | x in insts ensures GetMasterForNode(insts, x, []) == Some(m) { ChainDetermines(insts, x, m); }
    }
  }

  lemma ChainDetermines(insts: seq<Instance>, x: Instance, m: Instance)
    requires DistinctHosts(insts) && NoCoMasters(insts) && x in insts && m in insts && ChainReaches(insts, x, m)
    requires forall y :: y in insts ==> (y.masterKey.hostname == "" || y.isDetachedMaster <==> y == m)
    ensures GetMasterForNode(insts, x, []) == Some(m)
  {
    var chain :| HostChain(insts, chain) && chain[0] == x && chain[|chain| - 1] == m;
    var walk := FirstReach(insts, chain, m);
    assert forall i :: 0 <= i < |walk| ==> walk[i] in walk;
    ChainIsWalk(insts, walk);
    assert Last(walk) == m && !Follows(m) && Outcome(insts, m) == Some(m);
    assert LeadsTo(insts, x, m);
    MasterForNodeExactly(insts, x, m);
  }

  /** What each kind of node gives: a node that names no master or is detached is its own master; a co-master gives
      the instance it names; any other node gives what the instance it names gives. Where the named one is not
      listed there is no master. */
  lemma MasterForNodeByKind(insts: seq<Instance>, node: Instance)
    requires DistinctHosts(insts) && node in insts
    ensures !node.isCoMaster && (node.masterKey.hostname == "" || node.isDetachedMaster) ==>
              GetMasterForNode(insts, node, []) == Some(node)
    ensures (node.isCoMaster || (node.masterKey.hostname != "" && !node.isDetachedMaster))
            && (forall x :: x in insts ==> x.key.hostname != node.masterKey.hostname) ==>
              GetMasterForNode(insts, node, []) == None
    ensures forall x :: x in insts && x.key.hostname == node.masterKey.hostname ==>
              && (node.isCoMaster ==> GetMasterForNode(insts, node, []) == Some(x))
              && (!node.isCoMaster && node.masterKey.hostname != "" && !node.isDetachedMaster ==>
                    GetMasterForNode(insts, node, []) == GetMasterForNode(insts, x, []))
  {
    assert [] + [node] == [node] && Keys([]) == {};
    forall x | x in insts && x.key.hostname == node.masterKey.hostname
      ensures node.isCoMaster ==> GetMasterForNode(insts, node, []) == Some(x)
      ensures !node.isCoMaster && node.masterKey.hostname != "" && !node.isDetachedMaster ==>
                GetMasterForNode(insts, node, []) == GetMasterForNode(insts, x, [])
    {
      SameKeySameInstance(insts, GetInstance(insts, node.masterKey.hostname).value, x);
      if !node.isCoMaster && node.masterKey.hostname != "" && !node.isDetachedMaster { OneStepOn(insts, node, x); }
    }
  }

  /** The links of a node lead where those of its master lead. */
  lemma OneStepOn(insts: seq<Instance>, node: Instance, x: Instance)
    requires DistinctHosts(insts) && node in insts && Next(insts, node) == Some(x)
    ensures GetMasterForNode(insts, node, []) == GetMasterForNode(insts, x, [])
  {
    forall m: Instance ensures LeadsTo(insts, x, m) ==> LeadsTo(insts, node, m) {
      if LeadsTo(insts, x, m) {
        var walk :| Walk(insts, walk) && walk[0] == x && !Follows(Last(walk)) && Outcome(insts, Last(walk)) == Some(m);
        WalkPrepended(insts, node, walk);
        assert Last([node] + walk) == Last(walk);
      }
    }
    forall m: Instance ensures LeadsTo(insts, node, m) ==> LeadsTo(insts, x, m) {
      if LeadsTo(insts, node, m) {
        var walk :| Walk(insts, walk) && walk[0] == node && !Follows(Last(walk))
                    && Outcome(insts, Last(walk)) == Some(m);
        assert |walk| > 1;
        WalkTail(insts, walk);
        assert Last(walk[1..]) == Last(walk);
      }
    }
    hide LeadsTo, GetMasterForNode;
    var a, b := GetMasterForNode(insts, node, []), GetMasterForNode(insts, x, []);
    if a.Some? {
      MasterForNodeExactly(insts, node, a.value);
      MasterForNodeExactly(insts, x, a.value);
    } else if b.Some? {
      MasterForNodeExactly(insts, x, b.value);
      MasterForNodeExactly(insts, node, b.value);
    }
  }

  lemma WalkPrepended(insts: seq<Instance>, node: Instance, walk: seq<Instance>)
    requires Walk(insts, walk) && Next(insts, node) == Some(walk[0])
    ensures Walk(insts, [node] + walk)
  {
    var w := [node] + walk;
    forall i | 0 <= i < |w| - 1 ensures LinkAt(insts, w, i) {
      if i > 0 { assert LinkAt(insts, walk, i - 1); }
    }
  }

  lemma WalkTail(insts: seq<Instance>, walk: seq<Instance>)
    requires Walk(insts, walk) && |walk| > 1
    ensures Walk(insts, walk[1..]) && Next(insts, walk[0]) == Some(walk[1])
  {
    assert LinkAt(insts, walk, 0);
    forall i | 0 <= i < |walk[1..]| - 1 ensures LinkAt(insts, walk[1..], i) { assert LinkAt(insts, walk, i + 1); }
  }

  /** Two co-masters that name each other leave the cluster without a determined master. */
  lemma CoMasterPairIsUndecided(insts: seq<Instance>, a: Instance, b: Instance)
    requires DistinctHosts(insts) && a in insts && b in insts && a != b
    requires a.isCoMaster && a.masterKey.hostname == b.key.hostname
    requires b.isCoMaster && b.masterKey.hostname == a.key.hostname
    ensures MasterOf(insts) == None
  {
    SameKeySameInstance(insts, GetInstance(insts, a.key.hostname).value, a);
    SameKeySameInstance(insts, GetInstance(insts, b.key.hostname).value, b);
    assert GetMasterForNode(insts, a, []) == Some(b);
    assert GetMasterForNode(insts, b, []) == Some(a);
    if a.key.hostname == b.key.hostname { SameKeySameInstance(insts, a, b); }
  }

  /* ---- the order of the list does not matter ---- */

  lemma {:induction false} ReorderedMasterForNode(insts: seq<Instance>, other: seq<Instance>, node: Instance,
                                                  visited: seq<Instance>)
    requires DistinctHosts(insts) && DistinctHosts(other)
    requires forall x :: x in insts <==> x in other
    ensures GetMasterForNode(insts, node, visited) == GetMasterForNode(other, node, visited)
    decreases Keys(insts) + {node.key} - Keys(visited)
  {
    var host := node.masterKey.hostname;
    var master := GetInstance(insts, host);
    assert master == GetInstance(other, host) by {
      var m := GetInstance(other, host);
      if master.Some? { SameKeySameInstance(insts, master.value, m.value); }
    }
    if node.key !in Keys(visited) && Follows(node) && master.Some? {
      var visited' := visited + [node];
      assert Keys(visited') == Keys(visited) + {node.key};
      assert node.key !in Keys(insts) + {master.value.key} - Keys(visited');
      ReorderedMasterForNode(insts, other, master.value, visited');
    }
  }

  /** DetermineMaster finds the same master, or none, for every reordering of the list. */
  lemma ReorderedMaster(insts: seq<Instance>, other: seq<Instance>)
    requires DistinctHosts(insts) && multiset(insts) == multiset(other)
    ensures MasterOf(insts) == MasterOf(other)
  {
    assert forall x :: x in insts <==> x in multiset(insts);
    assert forall x :: x in other <==> x in multiset(other);
    ReorderedDistinct(insts, other);
    forall x ensures GetMasterForNode(insts, x, []) == GetMasterForNode(other, x, []) {
      ReorderedMasterForNode(insts, other, x, []);
    }
    if insts != [] {
      var first, otherFirst := GetMasterForNode(insts, insts[0], []), GetMasterForNode(other, other[0], []);
      assert insts[0] in insts && other[0] in other;
      if MasterOf(insts).Some? {
        AgreedMasterIsTheSame(insts, first.value, other[0]);
      }
      if MasterOf(other).Some? {
        AgreedMasterIsTheSame(other, otherFirst.value, insts[0]);
      }
    }
  }

  lemma ReorderedDistinct(insts: seq<Instance>, other: seq<Instance>)
    requires DistinctHosts(insts) && multiset(insts) == multiset(other)
    ensures DistinctHosts(other)
  {
    forall i, j | 0 <= i < j < |other| ensures other[i].key.hostname != other[j].key.hostname {
      if other[i].key.hostname == other[j].key.hostname {
        assert other[i] in multiset(insts) && other[j] in multiset(insts);
        SameKeySameInstance(insts, other[i], other[j]);
        TwiceCounted(other, i, j);
        OnceCounted(insts, other[i]);
      }
    }
  }

  lemma TwiceCounted(s: seq<Instance>, i: nat, j: nat)
    requires i < j < |s| && s[i] == s[j]
    ensures multiset(s)[s[i]] >= 2
  {
    assert s == s[..i] + [s[i]] + s[i + 1..j] + [s[j]] + s[j + 1..];
  }

  lemma {:induction false} OnceCounted(s: seq<Instance>, x: Instance)
    requires DistinctHosts(s)
    ensures multiset(s)[x] <= 1
  {
    if s != [] {
      OnceCounted(s[1..], x);
      assert s == [s[0]] + s[1..];
      if x == s[0] { assert x !in s[1..]; }
    }
  }
}
