/** Which hosts a pass makes writable or read-only. */
module WriteGate {
  import opened Common
  import opened Topology

  const UPTIME_GRACE_TIME := 15

  /** A call that changes a host or the registration in Orchestrator. */
  datatype Call =
    | Discover(key: InstanceKey)
    | Forget(key: InstanceKey)
    | SetWritable(key: InstanceKey)
    | SetReadOnly(key: InstanceKey)
    | AckRecovery(id: int)

  /** The instance is reported up to date and has been up long enough to be touched. */
  predicate SettledInst(inst: Instance) { inst.isUpToDate && inst.uptime >= UPTIME_GRACE_TIME }

  /** The host that may be written to: the given master, unless the cluster is read-only. */
  predicate MayWrite(inst: Instance, master: Option<Instance>, specReadOnly: bool) {
    !specReadOnly && master.Some? && inst.key.hostname == master.value.key.hostname
  }

  function GateCallFor(inst: Instance, master: Option<Instance>, specReadOnly: bool): seq<Call> {
    if !SettledInst(inst) then []
    else if MayWrite(inst, master, specReadOnly) then
      if inst.readOnly then [SetWritable(inst.key)] else []
    else
      if !inst.readOnly then [SetReadOnly(inst.key)] else []
  }

  /** The calls of a pass in the order of the instances. */
  function GateCalls(failover: bool, insts: seq<Instance>, master: Option<Instance>, specReadOnly: bool): seq<Call> {
    if failover || insts == [] then []
    else GateCalls(failover, insts[..|insts| - 1], master, specReadOnly)
         + GateCallFor(insts[|insts| - 1], master, specReadOnly)
  }

  /** Exactly which calls are made: none during a failover, and otherwise for every settled instance
      whose state is not the wanted one. */
  lemma {:induction false} GateCallsExactly(failover: bool, insts: seq<Instance>, master: Option<Instance>,
                                            specReadOnly: bool)
    ensures failover ==> GateCalls(failover, insts, master, specReadOnly) == []
    ensures forall c :: c in GateCalls(failover, insts, master, specReadOnly) ==> c.SetWritable? || c.SetReadOnly?
    ensures forall key :: SetWritable(key) in GateCalls(failover, insts, master, specReadOnly) <==>
              !failover && exists x :: x in insts && x.key == key && SettledInst(x) && x.readOnly
                                       && MayWrite(x, master, specReadOnly)
    ensures forall key :: SetReadOnly(key) in GateCalls(failover, insts, master, specReadOnly) <==>
              !failover && exists x :: x in insts && x.key == key && SettledInst(x) && !x.readOnly
                                       && !MayWrite(x, master, specReadOnly)
  {
    if !failover && insts != [] {
      var prefix, last := insts[..|insts| - 1], insts[|insts| - 1];
      assert forall x :: x in insts <==> x in prefix || x == last;
      GateCallsExactly(failover, prefix, master, specReadOnly);
    }
  }

  /** The read-only flags of the hosts after a call. */
  function AfterCall(readOnly: map<InstanceKey, bool>, c: Call): map<InstanceKey, bool> {
    match c
    case SetWritable(key) => readOnly[key := false]
    case SetReadOnly(key) => readOnly[key := true]
    case _ => readOnly
  }

  function AfterCalls(readOnly: map<InstanceKey, bool>, calls: seq<Call>): map<InstanceKey, bool> {
    if calls == [] then readOnly
    else AfterCall(AfterCalls(readOnly, calls[..|calls| - 1]), calls[|calls| - 1])
  }

  lemma {:induction false} AfterConcat(readOnly: map<InstanceKey, bool>, a: seq<Call>, b: seq<Call>)
    ensures AfterCalls(readOnly, a + b) == AfterCalls(AfterCalls(readOnly, a), b)
  {
    if b == [] {
      assert a + b == a;
    } else {
      assert (a + b)[..|a + b| - 1] == a + b[..|b| - 1];
      AfterConcat(readOnly, a, b[..|b| - 1]);
    }
  }

  /** The calls up to instance `k` are those before it and its own. */
  lemma GateCallsSnoc(readOnly: map<InstanceKey, bool>, insts: seq<Instance>, k: nat, master: Option<Instance>,
                      specReadOnly: bool)
    requires k < |insts|
    ensures var before := GateCalls(false, insts[..k], master, specReadOnly);
            var after := GateCalls(false, insts[..k + 1], master, specReadOnly);
            var calls := GateCallFor(insts[k], master, specReadOnly);
            after == before + calls && AfterCalls(readOnly, after) == AfterCalls(AfterCalls(readOnly, before), calls)
  {
    assert insts[..k + 1][..k] == insts[..k];
    AfterConcat(readOnly, GateCalls(false, insts[..k], master, specReadOnly),
                GateCallFor(insts[k], master, specReadOnly));
  }

  /** Calls about other hosts do not change the flag of a host. */
  lemma {:induction false} UntouchedHost(readOnly: map<InstanceKey, bool>, insts: seq<Instance>,
                                         master: Option<Instance>,
                                         specReadOnly: bool, key: InstanceKey)
    requires key in readOnly && forall x :: x in insts ==> x.key != key
    ensures var after := AfterCalls(readOnly, GateCalls(false, insts, master, specReadOnly));
            key in after && after[key] == readOnly[key]
  {
    if insts != [] {
      var prefix, last := insts[..|insts| - 1], insts[|insts| - 1];
      UntouchedHost(readOnly, prefix, master, specReadOnly, key);
      AfterConcat(readOnly, GateCalls(false, prefix, master, specReadOnly), GateCallFor(last, master, specReadOnly));
      LastCall(AfterCalls(readOnly, GateCalls(false, prefix, master, specReadOnly)), last, master, specReadOnly);
    }
  }

  lemma LastCall(readOnly: map<InstanceKey, bool>, inst: Instance, master: Option<Instance>, specReadOnly: bool)
    ensures AfterCalls(readOnly, GateCallFor(inst, master, specReadOnly))
            == if GateCallFor(inst, master, specReadOnly) == [] then readOnly
               else readOnly[inst.key := !MayWrite(inst, master, specReadOnly)]
  {
    var calls := GateCallFor(inst, master, specReadOnly);
    if calls != [] { assert calls[..0] == [] && AfterCalls(readOnly, calls[..0]) == readOnly; }
  }

  /** Outside a failover, when all calls take effect and the report was right, every settled instance
      ends up writable exactly when it is the master of a writable cluster, and every other instance is
      as it was. */
  lemma {:induction false} GateReachesTheWantedState(readOnly: map<InstanceKey, bool>, insts: seq<Instance>,
                                                     master: Option<Instance>, specReadOnly: bool)
    requires DistinctHosts(insts)
    requires forall x :: x in insts ==> x.key in readOnly && readOnly[x.key] == x.readOnly
    ensures var after := AfterCalls(readOnly, GateCalls(false, insts, master, specReadOnly));
            forall x :: x in insts ==>
              x.key in after && after[x.key] == if SettledInst(x) then !MayWrite(x, master, specReadOnly)
                                               else x.readOnly
  {
    if insts != [] {
      var prefix, last := insts[..|insts| - 1], insts[|insts| - 1];
      assert insts == prefix + [last];
      GateReachesTheWantedState(readOnly, prefix, master, specReadOnly);
      UntouchedHost(readOnly, prefix, master, specReadOnly, last.key);
      AfterConcat(readOnly, GateCalls(false, prefix, master, specReadOnly), GateCallFor(last, master, specReadOnly));
      LastCall(AfterCalls(readOnly, GateCalls(false, prefix, master, specReadOnly)), last, master, specReadOnly);
      forall x | x in prefix ensures x.key != last.key {
        var i :| 0 <= i < |prefix| && prefix[i] == x;
        assert insts[i] == x;
      }
    }
  }

  /* ---- the same in the fields of the instances ---- */

  /** A host is made writable exactly when there is no failover, the cluster is not meant to be read-only, and it is
      the given master, reported up to date, up for 15 seconds at least and read-only. */
  lemma MadeWritableExactly(failover: bool, insts: seq<Instance>, master: Option<Instance>, specReadOnly: bool,
                            key: InstanceKey)
    ensures SetWritable(key) in GateCalls(failover, insts, master, specReadOnly) <==>
            && !failover && !specReadOnly && master.Some? && key.hostname == master.value.key.hostname
            && exists x :: x in insts && x.key == key && x.isUpToDate && x.uptime >= 15 && x.readOnly
  {
    GateCallsExactly(failover, insts, master, specReadOnly);
  }

  /** A host is made read-only exactly when there is no failover, it is not the given master of a cluster that is to
      be writable, and it is reported up to date, up for 15 seconds at least and writable. */
  lemma MadeReadOnlyExactly(failover: bool, insts: seq<Instance>, master: Option<Instance>, specReadOnly: bool,
                            key: InstanceKey)
    ensures SetReadOnly(key) in GateCalls(failover, insts, master, specReadOnly) <==>
            && !failover && (specReadOnly || master.None? || key.hostname != master.value.key.hostname)
            && exists x :: x in insts && x.key == key && x.isUpToDate && x.uptime >= 15 && !x.readOnly
  {
    GateCallsExactly(failover, insts, master, specReadOnly);
  }

  /** The flags after all calls of the gate, when they succeed and the report was right: during a failover, and for
      instances that are stale or up for less than 15 seconds, as before; for any other, writable exactly when it is
      the given master and the cluster is not meant to be read-only. */
  lemma FlagsAfterGate(readOnly: map<InstanceKey, bool>, failover: bool, insts: seq<Instance>, master: Option<Instance>,
                       specReadOnly: bool, x: Instance)
    requires DistinctHosts(insts) && x in insts
    requires forall y :: y in insts ==> y.key in readOnly && readOnly[y.key] == y.readOnly
    ensures var after := AfterCalls(readOnly, GateCalls(failover, insts, master, specReadOnly));
            && x.key in after
            && (failover || !x.isUpToDate || x.uptime < 15 ==> after[x.key] == x.readOnly)
            && (!failover && x.isUpToDate && x.uptime >= 15 ==>
                  (!after[x.key] <==> !specReadOnly && master.Some? && x.key.hostname == master.value.key.hostname))
  {
    GateCallsExactly(failover, insts, master, specReadOnly);
    if !failover { GateReachesTheWantedState(readOnly, insts, master, specReadOnly); }
  }
}
