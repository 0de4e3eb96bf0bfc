/** The reconcile loop of a MySQL cluster as far as upgrades are concerned, and what holds over every
    run of reconciles, spec edits, readiness changes and failures. */
module UpgradeRuns {
  import opened Common
  import opened Versions
  import opened UpgradeDecisions
  import opened RolloutObservation

  /** What the API server stores. */
  datatype World = World(spec: Spec, status: Status, sts: Option<StatefulSet>)

  /** One write of the StatefulSet template: the recorded version it was decided from, and the
      version written. */
  datatype TemplateWrite = TemplateWrite(from: Version, to: Version)

  /** The first API call of a reconcile that fails or, at the entry, any earlier reason to return. */
  datatype Fault =
    | NoFault
    | AtEntry
    | AtPodList
    | AtBackfillPersist
    | AtBlockedPersist
    | AtAnnotations
    | BeforeTemplate
    | AtTemplateWrite
    | AfterTemplate
    | AtRecordPersist

  /** What one reconcile meets: the pods and credentials it reads when it starts and when it ends, how
      many replicas are ready at the end, its first failing call, and whether the status update that
      is deferred to the end of the reconcile succeeds. */
  datatype Env = Env(fault: Fault, deferredOk: bool,
                     credentials: Credentials, pods: seq<Pod>,
                     credentialsAtEnd: Credentials, podsAtEnd: seq<Pod>, readyAtEnd: int)

  datatype Outcome = Outcome(world: World, write: Option<TemplateWrite>)

  /* ---- specification of one reconcile ---- */

  function InMemory(w: World): Cluster { Cluster(w.spec, w.status) }

  function ReadyReplicas(sts: Option<StatefulSet>): int {
    if sts.None? then 0 else sts.value.readyReplicas
  }

  /** The template decided for the in-memory cluster `c`. */
  function SyncedTemplate(c: Cluster, sts: Option<StatefulSet>): StatefulSet {
    var rollout := RolloutMySQLVersion(c, sts);
    StatefulSet(rollout, InitContainers(c, rollout), ReadyReplicas(sts))
  }

  /** The outcome of a StatefulSet sync on its own. */
  function TemplateSynced(c: Cluster, w: World, fault: Fault): Outcome {
    if fault == BeforeTemplate || fault == AtTemplateWrite then Outcome(w, None)
    else
      var t := SyncedTemplate(c, w.sts);
      Outcome(w.(sts := Some(t)), Some(TemplateWrite(c.status.applied, t.version)))
  }

  /** The version to record at the end of a reconcile, if any. */
  ghost function SyncAppliedVersion(c: Cluster, sts: Option<StatefulSet>, credentials: Credentials,
                                    pods: seq<Pod>): Option<Version> {
    if ProfilesMatch(c.status.applied, c.spec.desired) && !c.status.applied.Less(c.spec.desired) then None
    else if !RolloutDone(c, sts, pods) then None
    else
      match Observe(credentials, pods)
      case Agreed(v) => if ProfilesMatch(v, c.spec.desired) then Some(v) else None
      case _ => None
  }

  /** The part after a successful version check. The status is persisted at the end only when it has
      changed since the check, so clearing UpgradeBlocked alone is not written back. */
  ghost function Proceeded(c0: Cluster, w: World, e: Env): Outcome {
    var c := c0.(status := c0.status.(upgradeBlocked := Some(False)));
    if e.fault == AtAnnotations || e.fault == BeforeTemplate then Outcome(w, None)
    else
      var synced := TemplateSynced(c, w, e.fault);
      var c1 := c.(status := c.status.(readyNodes := ReadyReplicas(w.sts)));
      var sts := if synced.world.sts.None? then None
                 else Some(synced.world.sts.value.(readyReplicas := e.readyAtEnd));
      var advance := if e.fault == NoFault || e.fault == AtRecordPersist
                     then SyncAppliedVersion(c1, sts, e.credentialsAtEnd, e.podsAtEnd) else None;
      var c2 := if advance.Some? then c1.(status := c1.status.(applied := advance.value)) else c1;
      var persisted := (advance.Some? && e.fault != AtRecordPersist) || (c2.status != c.status && e.deferredOk);
      Outcome(if persisted then synced.world.(status := c2.status) else synced.world, synced.write)
  }

  /** The part that starts with the version check. */
  ghost function Checked(w: World, e: Env): Outcome {
    var c := InMemory(w);
    match EnsureChecked(c)
    case Proceed => Proceeded(c, w, e)
    case Hold =>
      if c.status.upgradeBlocked != Some(True) then TemplateSynced(c, w, e.fault)
      else if e.fault == AtBlockedPersist then Outcome(w, None)
      else
        var s := c.status.(upgradeBlocked := Some(False));
        TemplateSynced(c.(status := s), w.(status := s), e.fault)
    case Blocked(_) =>
      if e.fault == AtBlockedPersist then Outcome(w, None)
      else
        var s := c.status.(upgradeBlocked := Some(True));
        TemplateSynced(c.(status := s), w.(status := s), e.fault)
  }

  ghost function Reconciled(w: World, e: Env): Outcome {
    var c := InMemory(w);
    if e.fault == AtEntry || e.fault == AtPodList then Outcome(w, None)
    else if !NeedsAppliedBackfill(c) then Checked(w, e)
    else
      match Observe(e.credentials, e.pods)
      case Waiting => TemplateSynced(c, w, e.fault)
      case CredentialError => Outcome(w, None)
      case Agreed(v) =>
        if e.fault == AtBackfillPersist then Outcome(w, None)
        else Checked(w.(status := w.status.(applied := v)), e)
  }

  /* ---- the reconciler ---- */

  class ReconcileMysqlCluster {
    var spec: Spec
    var status: Status
    var sts: Option<StatefulSet>
    /** Every template write so far, oldest first. */
    var writes: seq<TemplateWrite>

    ghost function Stored(): World
      reads this
    {
      World(spec, status, sts)
    }

    constructor (spec: Spec)
      ensures Stored() == World(spec, Status(ZERO, 0, None), None) && writes == []
    {
      this.spec := spec;
      status := Status(ZERO, 0, None);
      sts := None;
      writes := [];
    }

    /** Writes the template for the in-memory cluster. */
    method SyncStatefulSet(c: Cluster, fault: Fault) returns (ok: bool)
      modifies this`sts, this`writes
      ensures ok == (TemplateSynced(c, old(Stored()), fault).write.Some?)
      ensures Stored() == TemplateSynced(c, old(Stored()), fault).world
      ensures writes == old(writes) + if ok then [TemplateSynced(c, old(Stored()), fault).write.value] else []
    {
      if fault == BeforeTemplate || fault == AtTemplateWrite { return false; }
      var rollout := RolloutMySQLVersion(c, sts);
      sts := Some(StatefulSet(rollout, InitContainers(c, rollout), ReadyReplicas(sts)));
      writes := writes + [TemplateWrite(c.status.applied, rollout)];
      return true;
    }

    method AdvanceOf(c: Cluster, sts: Option<StatefulSet>, credentials: Credentials, pods: seq<Pod>)
      returns (advance: Option<Version>)
      ensures advance == SyncAppliedVersion(c, sts, credentials, pods)
    {
      var desired, applied := c.spec.desired, c.status.applied;
      if ProfilesMatch(applied, desired) && !applied.Less(desired) { return None; }
      var complete := RolloutComplete(c, sts, pods);
      if !complete { return None; }
      var observed := ObserveDataPlaneVersionSQL(credentials, pods);
      if !observed.Agreed? || !ProfilesMatch(observed.version, desired) { return None; }
      return Some(observed.version);
    }

    method Proceeding(c0: Cluster, e: Env)
      modifies this
      ensures Stored() == Proceeded(c0, old(Stored()), e).world
      ensures var w := Proceeded(c0, old(Stored()), e).write;
              writes == old(writes) + if w.Some? then [w.value] else []
    {
      var c := c0.(status := c0.status.(upgradeBlocked := Some(False)));
      if e.fault == AtAnnotations || e.fault == BeforeTemplate { return; }
      var snapshot := c.status;
      var readyNodes := ReadyReplicas(sts);
      var _ := SyncStatefulSet(c, e.fault);
      c := c.(status := c.status.(readyNodes := readyNodes));
      if e.fault == NoFault || e.fault == AtRecordPersist {
        var current := if sts.None? then None else Some(sts.value.(readyReplicas := e.readyAtEnd));
        var advance := AdvanceOf(c, current, e.credentialsAtEnd, e.podsAtEnd);
        if advance.Some? {
          c := c.(status := c.status.(applied := advance.value));
          if e.fault != AtRecordPersist { status := c.status; }
        }
      }
      if c.status != snapshot && e.deferredOk { status := c.status; }
    }

    method Reconcile(e: Env)
      modifies this
      ensures Stored() == Reconciled(old(Stored()), e).world
      ensures var w := Reconciled(old(Stored()), e).write;
              writes == old(writes) + if w.Some? then [w.value] else []
    {
      hide EnsureChecked, RolloutMySQLVersion, Proceeded, SyncedTemplate, Observe;
      if e.fault == AtEntry || e.fault == AtPodList { return; }
      var c := Cluster(spec, status);
      if NeedsAppliedBackfill(c) {
        var observed := ObserveDataPlaneVersionSQL(e.credentials, e.pods);
        match observed {
          case Waiting =>
            var _ := SyncStatefulSet(c, e.fault);
            return;
          case CredentialError =>
            return;
          case Agreed(v) =>
            if e.fault == AtBackfillPersist { return; }
            c := c.(status := c.status.(applied := v));
            status := c.status;
        }
      }
      match EnsureChecked(c) {
        case Proceed =>
          Proceeding(c, e);
        case Hold =>
          if c.status.upgradeBlocked == Some(True) {
            if e.fault == AtBlockedPersist { return; }
            c := c.(status := c.status.(upgradeBlocked := Some(False)));
            status := c.status;
          }
          var _ := SyncStatefulSet(c, e.fault);
        case Blocked(_) =>
          if e.fault == AtBlockedPersist { return; }
          c := c.(status := c.status.(upgradeBlocked := Some(True)));
          status := c.status;
          var _ := SyncStatefulSet(c, e.fault);
      }
    }
  }
}
