/** What one reconcile of a cluster comes to, in version numbers, failing calls and the state before. */
module UpgradeOutcomes {
  import opened Common
  import opened Versions
  import opened UpgradeDecisions
  import opened RolloutObservation
  import opened UpgradeRuns
  import opened UpgradeSafety

  /** The StatefulSet after its template was written for `version`. */
  function Templated(w: World, version: Version): StatefulSet {
    StatefulSet(version, InitContainers(InMemory(w), version), if w.sts.Some? then w.sts.value.readyReplicas else 0)
  }

  /** The template is not written when its own write, or a call before it, fails. */
  predicate WritesTemplate(fault: Fault) { fault != BeforeTemplate && fault != AtTemplateWrite }

  /** What is recorded at the end: the version that the servers agree on, after the rollout of a move to a newer
      version or another line. */
  ghost predicate RecordsVersion(w: World, e: Env, v: Version) {
    && (e.fault == NoFault || e.fault == AtRecordPersist)
    && (Line(w.status.applied) != Line(w.spec.desired) || w.status.applied.Less(w.spec.desired))
    && RolloutDone(InMemory(w), Some(Templated(w, w.spec.desired).(readyReplicas := e.readyAtEnd)), e.podsAtEnd)
    && Observe(e.credentialsAtEnd, e.podsAtEnd) == Agreed(v) && Line(v) == Line(w.spec.desired)
  }

  ghost predicate RecordsSome(w: World, e: Env) { exists v :: RecordsVersion(w, e, v) }

  ghost function RecordedVersion(w: World, e: Env): Version
    ensures forall v :: RecordsVersion(w, e, v) ==> RecordedVersion(w, e) == v
    ensures !RecordsSome(w, e) ==> RecordedVersion(w, e) == w.status.applied
  {
    if RecordsSome(w, e) then
      var v :| RecordsVersion(w, e, v);
      v
    else w.status.applied
  }

  /** A recorded version, and a desired version that is refused: once the status is stored, the cluster is marked as
      blocked, and the template pinned to the recorded version is written unless one of the calls up to it fails. */
  lemma RefusedExactly(w: World, e: Env)
    requires w.status.applied != Version(0, 0, 0) && Refused(w.status.applied, w.spec.desired)
    ensures var o := Reconciled(w, e);
            if e.fault == AtEntry || e.fault == AtPodList || e.fault == AtBlockedPersist then o == Outcome(w, None)
            else
              && o.world.spec == w.spec && o.world.status == w.status.(upgradeBlocked := Some(True))
              && o.world.sts == (if WritesTemplate(e.fault) then Some(Templated(w, w.status.applied)) else w.sts)
              && o.write == (if WritesTemplate(e.fault) then Some(TemplateWrite(w.status.applied, w.status.applied))
                             else None)
  {
    var c := InMemory(w);
    var blocked := c.(status := c.status.(upgradeBlocked := Some(True)));
    assert !NeedsAppliedBackfill(c);
    VerdictByFields(c);
    RolloutByFields(blocked, w.sts);
    OnlySpecAndAppliedMatter(c, blocked, w.sts, w.status.applied);
    hide EnsureChecked, RolloutMySQLVersion, InitContainers, Refused, MayMove;
    assert !MayMove(w.status.applied, w.spec.desired) by { RefusedMayNotMove(w.status.applied, w.spec.desired); }
  }

  lemma RefusedMayNotMove(applied: Version, desired: Version)
    requires Refused(applied, desired)
    ensures !MayMove(applied, desired)
  {
  }

  /** The template version of a reconcile that is not refused. */
  function Target(w: World): Version {
    if w.status.applied == Version(0, 0, 0) || MayMove(w.status.applied, w.spec.desired) then w.spec.desired
    else w.status.applied
  }

  /** The status is stored at the end when a version is recorded, by its own update, or when ready nodes or recorded
      version have changed, by the deferred one. */
  ghost predicate StoresStatus(w: World, e: Env) {
    var readyNodes := if w.sts.Some? then w.sts.value.readyReplicas else 0;
    || (e.fault == NoFault && RecordsSome(w, e))
    || (e.deferredOk && (readyNodes != w.status.readyNodes || RecordedVersion(w, e) != w.status.applied))
  }

  /** A desired version that is not refused, or the first reconcile of a cluster without data: the template for it is
      written unless one of the calls up to it fails; and at the end, when the status is stored, the cluster is no
      longer marked as blocked, has its ready nodes counted and the version recorded that it has come to. */
  lemma NotRefusedExactly(w: World, e: Env)
    requires if w.status.applied == Version(0, 0, 0) then !(w.spec.hasPVC && w.status.readyNodes > 0)
             else !Refused(w.status.applied, w.spec.desired)
    ensures var o := Reconciled(w, e);
            if e.fault == AtEntry || e.fault == AtPodList || e.fault == AtAnnotations || e.fault == BeforeTemplate
            then o == Outcome(w, None)
            else
              var readyNodes := if w.sts.Some? then w.sts.value.readyReplicas else 0;
              && o.world.spec == w.spec
              && o.world.sts == (if WritesTemplate(e.fault) then Some(Templated(w, Target(w))) else w.sts)
              && o.write == (if WritesTemplate(e.fault) then Some(TemplateWrite(w.status.applied, Target(w))) else None)
              && o.world.status == if StoresStatus(w, e) then Status(RecordedVersion(w, e), readyNodes, Some(False))
                                   else w.status
  {
    var c := InMemory(w);
    VerdictByFields(c);
    assert EnsureChecked(c) == Proceed;
    if e.fault != AtEntry && e.fault != AtPodList {
      assert Reconciled(w, e) == Proceeded(c, w, e) by {
        hide EnsureChecked, Proceeded;
        assert !NeedsAppliedBackfill(c);
      }
      hide EnsureChecked, Reconciled;
      ProceededExactly(w, e);
    }
  }

  /** The cluster in memory after a successful check differs only in the condition. */
  lemma TemplateOfProceeding(w: World)
    requires if w.status.applied == Version(0, 0, 0) then !(w.spec.hasPVC && w.status.readyNodes > 0)
             else !Refused(w.status.applied, w.spec.desired)
    ensures var c := InMemory(w).(status := w.status.(upgradeBlocked := Some(False)));
            SyncedTemplate(c, w.sts) == Templated(w, Target(w))
  {
    var c := InMemory(w).(status := w.status.(upgradeBlocked := Some(False)));
    RolloutByFields(c, w.sts);
    InitContainersByFields(c, Target(w));
    InitContainersByFields(InMemory(w), Target(w));
    hide RolloutMySQLVersion, InitContainers, MayMove, Refused, Line;
  }

  lemma ProceededExactly(w: World, e: Env)
    requires if w.status.applied == Version(0, 0, 0) then !(w.spec.hasPVC && w.status.readyNodes > 0)
             else !Refused(w.status.applied, w.spec.desired)
    ensures var o := Proceeded(InMemory(w), w, e);
            if e.fault == AtAnnotations || e.fault == BeforeTemplate then o == Outcome(w, None)
            else
              var readyNodes := if w.sts.Some? then w.sts.value.readyReplicas else 0;
              && o.world.spec == w.spec
              && o.world.sts == (if WritesTemplate(e.fault) then Some(Templated(w, Target(w))) else w.sts)
              && o.write == (if WritesTemplate(e.fault) then Some(TemplateWrite(w.status.applied, Target(w))) else None)
              && o.world.status == if StoresStatus(w, e) then Status(RecordedVersion(w, e), readyNodes, Some(False))
                                   else w.status
  {
    TemplateOfProceeding(w);
    if e.fault == NoFault || e.fault == AtRecordPersist { AdvanceExactly(w, e); }
    hide SyncedTemplate, SyncAppliedVersion, Templated, Target, Refused, RecordsVersion, RolloutDone;
  }

  /** The version to record, computed at the end of a reconcile with an accepted path. */
  lemma AdvanceExactly(w: World, e: Env)
    requires e.fault == NoFault || e.fault == AtRecordPersist
    requires if w.status.applied == Version(0, 0, 0) then !(w.spec.hasPVC && w.status.readyNodes > 0)
             else !Refused(w.status.applied, w.spec.desired)
    ensures var status := w.status.(upgradeBlocked := Some(False), readyNodes := ReadyReplicas(w.sts));
            var advance := SyncAppliedVersion(InMemory(w).(status := status),
                                              Some(Templated(w, Target(w)).(readyReplicas := e.readyAtEnd)),
                                              e.credentialsAtEnd, e.podsAtEnd);
            && (advance.Some? <==> RecordsSome(w, e))
            && (advance.Some? ==> RecordedVersion(w, e) == advance.value)
  {
    var status := w.status.(upgradeBlocked := Some(False), readyNodes := ReadyReplicas(w.sts));
    var c := InMemory(w).(status := status);
    var sts := Some(Templated(w, Target(w)).(readyReplicas := e.readyAtEnd));
    var advance := SyncAppliedVersion(c, sts, e.credentialsAtEnd, e.podsAtEnd);
    forall a: Version, b: Version ensures ProfilesMatch(a, b) <==> Line(a) == Line(b) { SameProfileIsSameLine(a, b); }
    assert RolloutDone(c, sts, e.podsAtEnd) <==> RolloutDone(InMemory(w), sts, e.podsAtEnd);
    if Target(w) != w.spec.desired { OrderExactly(w.status.applied, w.spec.desired); }
    hide ProfilesMatch, Line, RolloutDone, Observe, Templated, MayMove;
    forall v ensures RecordsVersion(w, e, v) <==> advance == Some(v) {
    }
    if advance.Some? { assert RecordsVersion(w, e, advance.value); }
  }

  /** Data without a recorded version. While the servers do not agree, only the template is written, for the version
      it has, when it has one. When they agree on a version, that is recorded at once, and the reconcile goes on as one
      that found it recorded. */
  lemma BackfillExactly(w: World, e: Env)
    requires w.status.applied == Version(0, 0, 0) && w.spec.hasPVC && w.status.readyNodes > 0
    requires e.fault != AtEntry && e.fault != AtPodList
    ensures Observe(e.credentials, e.pods) == CredentialError ==> Reconciled(w, e) == Outcome(w, None)
    ensures Observe(e.credentials, e.pods) == Waiting ==>
              var version := if w.sts.Some? && w.sts.value.version != Version(0, 0, 0) then w.sts.value.version
                             else w.spec.desired;
              Reconciled(w, e)
              == if WritesTemplate(e.fault)
                 then Outcome(w.(sts := Some(Templated(w, version))), Some(TemplateWrite(Version(0, 0, 0), version)))
                 else Outcome(w, None)
    ensures forall v :: Observe(e.credentials, e.pods) == Agreed(v) && v != Version(0, 0, 0) ==>
              Reconciled(w, e) == if e.fault == AtBackfillPersist then Outcome(w, None)
                                  else Reconciled(w.(status := w.status.(applied := v)), e)
    ensures Observe(e.credentials, e.pods) == Agreed(Version(0, 0, 0)) ==>
              var version := if w.sts.Some? && w.sts.value.version != Version(0, 0, 0) then w.sts.value.version
                             else w.spec.desired;
              var cleared := if w.status.upgradeBlocked == Some(True) then w.status.(upgradeBlocked := Some(False))
                             else w.status;
              Reconciled(w, e)
              == if e.fault == AtBackfillPersist then Outcome(w, None)
                 else if w.status.upgradeBlocked == Some(True) && e.fault == AtBlockedPersist then Outcome(w, None)
                 else if WritesTemplate(e.fault)
                 then Outcome(World(w.spec, cleared, Some(Templated(w, version))),
                              Some(TemplateWrite(Version(0, 0, 0), version)))
                 else Outcome(w.(status := cleared), None)
  {
    RolloutByFields(InMemory(w), w.sts);
    if Observe(e.credentials, e.pods) == Agreed(Version(0, 0, 0)) {
      var cleared := w.status.(upgradeBlocked := Some(False));
      RolloutByFields(InMemory(w).(status := cleared), w.sts);
      VerdictByFields(InMemory(w));
      var version := RolloutMySQLVersion(InMemory(w), w.sts);
      InitContainersByFields(InMemory(w), version);
      InitContainersByFields(InMemory(w).(status := cleared), version);
      hide RolloutMySQLVersion, InitContainers, EnsureChecked, Observe, Line, Supported;
    } else {
      hide RolloutMySQLVersion, InitContainers, Checked, Observe;
    }
  }

  /** What every reconcile with a recorded version stores as UpgradeBlocked. */
  lemma BlockedExactly(w: World, e: Env)
    requires w.status.applied != Version(0, 0, 0)
    ensures Reconciled(w, e).world.status.upgradeBlocked
            == if e.fault == AtEntry || e.fault == AtPodList then w.status.upgradeBlocked
               else if Refused(w.status.applied, w.spec.desired) then
                 if e.fault == AtBlockedPersist then w.status.upgradeBlocked else Some(True)
               else if e.fault == AtAnnotations || e.fault == BeforeTemplate then w.status.upgradeBlocked
               else if StoresStatus(w, e) then Some(False) else w.status.upgradeBlocked
  {
    hide Reconciled, Refused, StoresStatus, Templated, Target;
    if Refused(w.status.applied, w.spec.desired) { RefusedExactly(w, e); } else { NotRefusedExactly(w, e); }
  }

  /* ---- the rollout in the fields of pods and template ---- */

  /** The first status under the name is a clean exit. */
  lemma ExitedZeroExactly(before: seq<InitStatus>, name: string, code: Option<int>, after: seq<InitStatus>)
    requires forall s :: s in before ==> s.name != name
    ensures ExitedZero(before + [InitStatus(name, code)] + after, name) <==> code == Some(0)
  {
    var all := before + [InitStatus(name, code)] + after;
    assert all[|before|] == InitStatus(name, code);
    assert forall j :: 0 <= j < |before| ==> all[j] == before[j] && before[j] in before;
  }

  lemma NoStatusNoExit(statuses: seq<InitStatus>, name: string)
    requires forall s :: s in statuses ==> s.name != name
    ensures !ExitedZero(statuses, name)
  {
  }

  ghost predicate Finished(pod: Pod, name: string) {
    name in pod.initContainers && ExitedZero(pod.initStatuses, name)
  }

  ghost function FinishedPods(inits: seq<string>, pods: seq<Pod>): set<nat> {
    set i: nat | i < |pods| && forall name :: name in inits ==> Finished(pods[i], name)
  }

  /** A rollout of the desired version is done exactly when the template runs it, at least one replica is wanted, that
      many are ready, and that many pods carry each of the template's init containers and have finished it. */
  lemma RolloutDoneExactly(c: Cluster, sts: Option<StatefulSet>, pods: seq<Pod>)
    ensures RolloutDone(c, sts, pods) <==>
            && sts.Some? && sts.value.version == c.spec.desired
            && c.spec.replicas.Some? && c.spec.replicas.value != 0 && sts.value.readyReplicas >= c.spec.replicas.value
            && |FinishedPods(sts.value.inits, pods)| >= c.spec.replicas.value
  {
    if sts.Some? { assert InitialisedPods(pods, sts.value.inits) == FinishedPods(sts.value.inits, pods); }
  }

  /** A pod counts as ready exactly when it has a container named mysql and a Ready condition that is True. */
  lemma ReadyExactly(pods: seq<Pod>, p: Pod)
    ensures p in ReadyPods(pods) <==>
            && p in pods && "mysql" in p.containers
            && exists c :: c in p.conditions && c.kind == "Ready" && c.status == True
  {
    FilterMember(MysqlReady, pods, p);
    if c :| c in p.conditions && c.kind == "Ready" && c.status == True { assert c == PodCondition("Ready", True); }
  }
}
