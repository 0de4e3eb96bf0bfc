/** Comparing the pods of a cluster with the instances registered in Orchestrator. */
module Registration {
  import opened Common
  import opened Names
  import opened Topology

  const MYSQL_PORT := 3306

  /** The instances of the pods with an ordinal below `n`, by ordinal. */
  function ReadyInstances(name: string, namespace: string, n: nat, insts: seq<Instance>): seq<Instance> {
    if n == 0 then []
    else
      var r := GetInstance(insts, PodHostname(name, namespace, n - 1));
      ReadyInstances(name, namespace, n - 1, insts) + (if r.Some? then [r.value] else [])
  }

  /** The unregistered pods with an ordinal below `n` and below the number of ready nodes. */
  function ToDiscover(name: string, namespace: string, n: nat, readyNodes: int,
                      insts: seq<Instance>): seq<InstanceKey> {
    if n == 0 then []
    else
      var host := PodHostname(name, namespace, n - 1);
      ToDiscover(name, namespace, n - 1, readyNodes, insts)
      + (if GetInstance(insts, host).None? && n - 1 < readyNodes then [InstanceKey(host, MYSQL_PORT)] else [])
  }

  /** The keys of the instances that are not among the ready ones. */
  function ToForget(insts: seq<Instance>, ready: seq<Instance>): seq<InstanceKey> {
    if insts == [] then []
    else
      var last := insts[|insts| - 1];
      ToForget(insts[..|insts| - 1], ready)
      + (if GetInstance(ready, last.key.hostname).None? then [last.key] else [])
  }

  function KeysOf(insts: seq<Instance>): (r: seq<InstanceKey>)
    ensures |r| == |insts|
  {
    seq(|insts|, i requires 0 <= i < |insts| => insts[i].key)
  }

  ghost predicate IsPodHost(name: string, namespace: string, n: nat, host: string) {
    exists i: nat :: i < n && host == PodHostname(name, namespace, i)
  }

  /** The ready instances are exactly the registered pods, each of them once. */
  lemma {:induction false} ReadyInstancesExactly(name: string, namespace: string, n: nat, insts: seq<Instance>)
    ensures forall x :: x in ReadyInstances(name, namespace, n, insts) <==>
                        IsPodHost(name, namespace, n, x.key.hostname) && GetInstance(insts, x.key.hostname) == Some(x)
    ensures DistinctHosts(ReadyInstances(name, namespace, n, insts))
  {
    if n > 0 {
      var host := PodHostname(name, namespace, n - 1);
      var before := ReadyInstances(name, namespace, n - 1, insts);
      var r := GetInstance(insts, host);
      ReadyInstancesExactly(name, namespace, n - 1, insts);
      assert forall h :: IsPodHost(name, namespace, n, h) <==> IsPodHost(name, namespace, n - 1, h) || h == host;
      forall x | x in before ensures x.key.hostname != host {
        var i: nat :| i < n - 1 && x.key.hostname == PodHostname(name, namespace, i);
        if x.key.hostname == host { HostnameInjective(name, namespace, i, n - 1); }
      }
    }
  }

  /** Pod `i` counts as ready, is not registered, and `key` is its key. */
  predicate Unregistered(name: string, namespace: string, readyNodes: int, insts: seq<Instance>, i: nat,
                         key: InstanceKey) {
    && i < readyNodes && key == InstanceKey(PodHostname(name, namespace, i), MYSQL_PORT)
    && GetInstance(insts, key.hostname).None?
  }

  /** Discovered are exactly the unregistered pods with ordinal below min(n, readyNodes), each once. */
  lemma {:induction false} DiscoversExactly(name: string, namespace: string, n: nat, readyNodes: int,
                                            insts: seq<Instance>)
    ensures forall key :: key in ToDiscover(name, namespace, n, readyNodes, insts) <==>
              exists i: nat :: i < n && Unregistered(name, namespace, readyNodes, insts, i, key)
    ensures Distinct(ToDiscover(name, namespace, n, readyNodes, insts))
  {
    if n > 0 {
      var key := InstanceKey(PodHostname(name, namespace, n - 1), MYSQL_PORT);
      var before := ToDiscover(name, namespace, n - 1, readyNodes, insts);
      DiscoversExactly(name, namespace, n - 1, readyNodes, insts);
      forall k | k in before ensures k != key {
        var i: nat :| i < n - 1 && Unregistered(name, namespace, readyNodes, insts, i, k);
        if k == key { HostnameInjective(name, namespace, i, n - 1); }
      }
      DistinctSnoc(before, key);
      if n - 1 < readyNodes && GetInstance(insts, key.hostname).None? {
        assert Unregistered(name, namespace, readyNodes, insts, n - 1, key);
      }
    }
  }

  lemma {:induction false} ForgetsExactly(insts: seq<Instance>, ready: seq<Instance>)
    ensures forall key :: key in ToForget(insts, ready) <==>
              exists x :: x in insts && x.key == key && GetInstance(ready, x.key.hostname).None?
  {
    if insts != [] {
      var prefix, last := insts[..|insts| - 1], insts[|insts| - 1];
      assert forall x :: x in insts <==> x in prefix || x == last;
      ForgetsExactly(prefix, ready);
    }
  }

  lemma {:induction false} ForgetsOnce(insts: seq<Instance>, ready: seq<Instance>)
    requires DistinctHosts(insts)
    ensures Distinct(ToForget(insts, ready))
  {
    if insts != [] {
      var prefix, last := insts[..|insts| - 1], insts[|insts| - 1];
      ForgetsOnce(prefix, ready);
      ForgetsExactly(prefix, ready);
      forall key | key in ToForget(prefix, ready) ensures key != last.key {
        var x :| x in prefix && x.key == key && GetInstance(ready, x.key.hostname).None?;
      }
      DistinctSnoc(ToForget(prefix, ready), last.key);
    }
  }

  /** Every instance is either ready or forgotten, never both, and each only once. */
  lemma InstancesArePartitioned(name: string, namespace: string, n: nat, insts: seq<Instance>)
    requires DistinctHosts(insts)
    ensures var ready := ReadyInstances(name, namespace, n, insts);
            var forget := ToForget(insts, ready);
            && (forall x :: x in insts ==> (x in ready <==> x.key !in forget))
            && (forall x :: x in ready ==> x in insts)
            && (forall key :: key in forget ==> exists x :: x in insts && x.key == key)
            && DistinctHosts(ready) && Distinct(forget)
  {
    var ready := ReadyInstances(name, namespace, n, insts);
    ReadyInstancesExactly(name, namespace, n, insts);
    ForgetsExactly(insts, ready);
    ForgetsOnce(insts, ready);
    forall x | x in insts ensures x in ready <==> x.key !in ToForget(insts, ready) {
      var r := GetInstance(ready, x.key.hostname);
      if r.Some? { SameKeySameInstance(insts, r.value, x); }
      if x in ready { assert r.Some?; }
      forall y | y in insts && y.key == x.key ensures y == x { SameKeySameInstance(insts, x, y); }
    }
  }

  function Hosts(insts: seq<Instance>): set<string> { set x | x in insts :: x.key.hostname }

  function HostsOfKeys(keys: seq<InstanceKey>): set<string> { set k | k in keys :: k.hostname }

  lemma PodHostIsNotForgotten(name: string, namespace: string, n: nat, insts: seq<Instance>, host: string)
    requires IsPodHost(name, namespace, n, host)
    ensures host !in HostsOfKeys(ToForget(insts, ReadyInstances(name, namespace, n, insts)))
  {
    var ready := ReadyInstances(name, namespace, n, insts);
    ReadyInstancesExactly(name, namespace, n, insts);
    ForgetsExactly(insts, ready);
    if GetInstance(insts, host).Some? { assert GetInstance(insts, host).value in ready; }
    forall key | key in ToForget(insts, ready) ensures key.hostname != host {
      var x :| x in insts && x.key == key && GetInstance(ready, x.key.hostname).None?;
    }
  }

  lemma NotForgottenIsPodHost(name: string, namespace: string, n: nat, insts: seq<Instance>, host: string)
    requires host in Hosts(insts)
    requires host !in HostsOfKeys(ToForget(insts, ReadyInstances(name, namespace, n, insts)))
    ensures IsPodHost(name, namespace, n, host)
  {
    var ready := ReadyInstances(name, namespace, n, insts);
    ReadyInstancesExactly(name, namespace, n, insts);
    ForgetsExactly(insts, ready);
    var x :| x in insts && x.key.hostname == host;
    assert GetInstance(ready, host).Some?;
  }

  /** The hosts registered once every discover and forget call of a pass has taken effect. */
  function RegisteredNext(name: string, namespace: string, n: nat, readyNodes: int, insts: seq<Instance>): set<string> {
    Hosts(insts) - HostsOfKeys(ToForget(insts, ReadyInstances(name, namespace, n, insts)))
    + HostsOfKeys(ToDiscover(name, namespace, n, readyNodes, insts))
  }

  lemma ReadyPodIsRegisteredNext(name: string, namespace: string, n: nat, readyNodes: int, insts: seq<Instance>, i: nat)
    requires i < n && i < readyNodes
    ensures PodHostname(name, namespace, i) in RegisteredNext(name, namespace, n, readyNodes, insts)
  {
    var key := InstanceKey(PodHostname(name, namespace, i), MYSQL_PORT);
    PodHostIsNotForgotten(name, namespace, n, insts, key.hostname);
    DiscoversExactly(name, namespace, n, readyNodes, insts);
    if GetInstance(insts, key.hostname).Some? {
      assert GetInstance(insts, key.hostname).value in insts;
    } else {
      assert Unregistered(name, namespace, readyNodes, insts, i, key);
    }
  }

  lemma RegisteredNextIsPodHost(name: string, namespace: string, n: nat, readyNodes: int, insts: seq<Instance>,
                                host: string)
    requires host in RegisteredNext(name, namespace, n, readyNodes, insts)
    ensures IsPodHost(name, namespace, n, host)
  {
    DiscoversExactly(name, namespace, n, readyNodes, insts);
    var discover := ToDiscover(name, namespace, n, readyNodes, insts);
    if host in HostsOfKeys(discover) {
      var key :| key in discover && key.hostname == host;
      var i: nat :| i < n && Unregistered(name, namespace, readyNodes, insts, i, key);
    } else {
      NotForgottenIsPodHost(name, namespace, n, insts, host);
    }
  }

  lemma NextDiscoversNothing(name: string, namespace: string, n: nat, readyNodes: int, insts: seq<Instance>,
                             next: seq<Instance>)
    requires Hosts(next) == RegisteredNext(name, namespace, n, readyNodes, insts)
    ensures ToDiscover(name, namespace, n, readyNodes, next) == []
  {
    var discover' := ToDiscover(name, namespace, n, readyNodes, next);
    DiscoversExactly(name, namespace, n, readyNodes, next);
    if discover' != [] {
      var key := discover'[0];
      assert key in discover';
      var i: nat :| i < n && Unregistered(name, namespace, readyNodes, next, i, key);
      ReadyPodIsRegisteredNext(name, namespace, n, readyNodes, insts, i);
    }
  }

  lemma {:induction false} NothingToForget(insts: seq<Instance>, ready: seq<Instance>)
    requires forall x :: x in insts ==> GetInstance(ready, x.key.hostname).Some?
    ensures ToForget(insts, ready) == []
  {
    if insts != [] { NothingToForget(insts[..|insts| - 1], ready); }
  }

  lemma NextForgetsNothing(name: string, namespace: string, n: nat, readyNodes: int, insts: seq<Instance>,
                           next: seq<Instance>)
    requires Hosts(next) == RegisteredNext(name, namespace, n, readyNodes, insts)
    ensures ToForget(next, ReadyInstances(name, namespace, n, next)) == []
  {
    var ready' := ReadyInstances(name, namespace, n, next);
    forall x | x in next ensures GetInstance(ready', x.key.hostname).Some? {
      var host := x.key.hostname;
      assert host in Hosts(next);
      RegisteredNextIsPodHost(name, namespace, n, readyNodes, insts, host);
      ReadyInstancesExactly(name, namespace, n, next);
      assert GetInstance(next, host).value in ready';
    }
    NothingToForget(next, ready');
  }

  /** When every discover and forget call of a pass has taken effect, the next pass discovers and
      forgets nothing. */
  lemma NextPassIsQuiet(name: string, namespace: string, n: nat, readyNodes: int, insts: seq<Instance>,
                        next: seq<Instance>)
    requires Hosts(next) == RegisteredNext(name, namespace, n, readyNodes, insts)
    ensures ToDiscover(name, namespace, n, readyNodes, next) == []
    ensures ToForget(next, ReadyInstances(name, namespace, n, next)) == []
  {
    NextDiscoversNothing(name, namespace, n, readyNodes, insts, next);
    NextForgetsNothing(name, namespace, n, readyNodes, insts, next);
  }
}
