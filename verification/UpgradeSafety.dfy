/** What every run of reconciles, spec edits, readiness changes and failures keeps. */
module UpgradeSafety {
  import opened Common
  import opened Versions
  import opened UpgradeDecisions
  import opened RolloutObservation
  import opened UpgradeRuns

  datatype Event =
    | Edit(spec: Spec)
    | Readiness(readyReplicas: int)
    | DeleteStatefulSet
    | Reconcile(env: Env)

  ghost function Step(w: World, ev: Event): Outcome {
    match ev
    case Edit(spec) => Outcome(w.(spec := spec), None)
    case Readiness(n) => Outcome(if w.sts.None? then w else w.(sts := Some(w.sts.value.(readyReplicas := n))), None)
    case DeleteStatefulSet => Outcome(w.(sts := None), None)
    case Reconcile(e) => Reconciled(w, e)
  }

  ghost function After(w: World, run: seq<Event>): World {
    if run == [] then w else Step(After(w, run[..|run| - 1]), run[|run| - 1]).world
  }

  /** The recorded line after the first `k` events. */
  ghost function LineAfter(w: World, run: seq<Event>, k: nat): nat
    requires k <= |run|
  {
    Line(After(w, run[..k]).status.applied)
  }

  /* ---- one step ---- */

  /** Only the spec and the recorded version decide the template and the verdict. */
  lemma OnlySpecAndAppliedMatter(c: Cluster, c': Cluster, sts: Option<StatefulSet>, rollout: Version)
    requires c.spec == c'.spec && c.status.applied == c'.status.applied
    requires !c.status.applied.IsZero()
    ensures RolloutMySQLVersion(c, sts) == RolloutMySQLVersion(c', sts)
    ensures InitContainers(c, rollout) == InitContainers(c', rollout)
    ensures EnsureChecked(c) == EnsureChecked(c')
  {
  }

  function Recorded(spec: Spec, applied: Version): Cluster { Cluster(spec, Status(applied, 0, None)) }

  /** What recording `v` in this reconcile says: the path was accepted, the template was written for
      exactly this move, its rollout is complete, and the ready servers agreed on `v`. */
  ghost predicate RecordedAfterRollout(spec: Spec, applied: Version, sts: Option<StatefulSet>, e: Env, v: Version) {
    && Accepts(applied, spec.desired)
    && ProfilesMatch(v, spec.desired)
    && Observe(e.credentialsAtEnd, e.podsAtEnd) == Agreed(v)
    && sts.Some? && sts.value.version == spec.desired
    && sts.value.inits == InitContainers(Recorded(spec, applied), spec.desired)
    && RolloutDone(Recorded(spec, applied), Some(sts.value.(readyReplicas := e.readyAtEnd)), e.podsAtEnd)
  }

  lemma ProceededRecords(c0: Cluster, w: World, e: Env)
    requires c0 == InMemory(w) && !w.status.applied.IsZero() && EnsureChecked(c0) == Proceed
    ensures var w' := Proceeded(c0, w, e).world;
            w'.spec == w.spec
            && (w'.status.applied == w.status.applied
                || RecordedAfterRollout(w.spec, w.status.applied, w'.sts, e, w'.status.applied))
  {
    var w' := Proceeded(c0, w, e).world;
    if w'.status.applied != w.status.applied {
      var c := c0.(status := c0.status.(upgradeBlocked := Some(False)));
      OnlySpecAndAppliedMatter(c0, c, w.sts, w.spec.desired);
      OnlySpecAndAppliedMatter(c, Recorded(w.spec, w.status.applied), w.sts, w.spec.desired);
      RolloutFollowsThePath(c, w.sts);
      BlockedMeansPinned(c0, w.sts);
      var t := SyncedTemplate(c, w.sts);
      assert w'.sts == Some(t);
      assert RolloutDone(c.(status := c.status.(readyNodes := ReadyReplicas(w.sts))),
                         Some(t.(readyReplicas := e.readyAtEnd)), e.podsAtEnd);
    }
  }

  /** With a recorded version, a reconcile either leaves it alone or records after a rollout. */
  lemma RecordedOnlyAfterRollout(w: World, e: Env)
    requires !w.status.applied.IsZero()
    ensures var w' := Reconciled(w, e).world;
            w'.spec == w.spec
            && (w'.status.applied == w.status.applied
                || RecordedAfterRollout(w.spec, w.status.applied, w'.sts, e, w'.status.applied))
  {
    var c := InMemory(w);
    assert !NeedsAppliedBackfill(c);
    if EnsureChecked(c) == Proceed {
      ProceededRecords(c, w, e);
    }
  }

  /** A reconcile never loses the recorded line and never raises it by more than one. */
  lemma ReconcileKeepsTheLine(w: World, e: Env)
    requires Supported(w.status.applied)
    ensures var v := Reconciled(w, e).world.status.applied;
            Supported(v) && Line(w.status.applied) <= Line(v) <= Line(w.status.applied) + 1
  {
    RecordedOnlyAfterRollout(w, e);
    var v := Reconciled(w, e).world.status.applied;
    if v != w.status.applied {
      AcceptedStep(w.status.applied, w.spec.desired);
      ProfileIndexIsLine(v);
      ProfileIndexIsLine(w.spec.desired);
    }
  }

  /** With a recorded version, every template written is one the path check accepts from it. */
  lemma WrittenTemplateIsAccepted(w: World, e: Env)
    requires !w.status.applied.IsZero()
    ensures var o := Reconciled(w, e);
            o.write.Some? ==> o.write.value.from == w.status.applied && Accepts(o.write.value.from, o.write.value.to)
                              && o.world.sts.Some? && o.world.sts.value.version == o.write.value.to
  {
    hide RolloutMySQLVersion, Accepts, InitContainers, RolloutDone, Observe, EnsureChecked, ProfilesMatch;
    assert !NeedsAppliedBackfill(InMemory(w));
    var c := InMemory(w);
    var cTrue := c.(status := c.status.(upgradeBlocked := Some(True)));
    var cFalse := c.(status := c.status.(upgradeBlocked := Some(False)));
    RolloutFollowsThePath(c, w.sts);
    RolloutFollowsThePath(cTrue, w.sts);
    RolloutFollowsThePath(cFalse, w.sts);
  }

  lemma ProceededNoChange(c: Cluster, w: World, e: Env)
    ensures var o := Proceeded(c, w, e); o.write.None? ==> o.world.sts == w.sts
  {
    hide SyncedTemplate, SyncAppliedVersion;
  }

  lemma CheckedNoChange(w: World, e: Env)
    ensures var o := Checked(w, e); o.write.None? ==> o.world.sts == w.sts
  {
    hide EnsureChecked, SyncedTemplate, Proceeded;
    ProceededNoChange(InMemory(w), w, e);
  }

  /** A reconcile that does not write the template leaves the StatefulSet alone. */
  lemma NoWriteNoChange(w: World, e: Env)
    requires !w.status.applied.IsZero()
    ensures var o := Reconciled(w, e); o.write.None? ==> o.world.sts == w.sts
  {
    assert !NeedsAppliedBackfill(InMemory(w));
    CheckedNoChange(w, e);
  }

  /** Data without a recorded version: the template keeps the version that can be read from it, until
      the servers have agreed on a version, and then it follows the path from that version. */
  lemma UnrecordedTemplateIsKept(w: World, e: Env)
    requires w.status.applied.IsZero() && HasMySQLData(InMemory(w))
    requires w.sts.Some? && !w.sts.value.version.IsZero()
    ensures var o := Reconciled(w, e);
            o.write.Some? ==>
              || (o.write.value.from.IsZero() && o.write.value.to == w.sts.value.version)
              || (Observe(e.credentials, e.pods) == Agreed(o.write.value.from)
                  && Accepts(o.write.value.from, o.write.value.to))
  {
    var c := InMemory(w);
    UnrecordedDataHolds(c, w.sts);
    match Observe(e.credentials, e.pods)
    case Agreed(v) =>
      var w1 := w.(status := w.status.(applied := v));
      if v.IsZero() {
        var c1 := InMemory(w1);
        var c2 := c1.(status := c1.status.(upgradeBlocked := Some(False)));
        UnrecordedDataHolds(c1, w.sts);
        UnrecordedDataHolds(c2, w.sts);
      } else if e.fault != AtEntry && e.fault != AtPodList && e.fault != AtBackfillPersist {
        WrittenTemplateIsAccepted(w1, e);
      }
    case _ =>
  }

  /** The pods that carried the chown container and on which it exited 0. */
  ghost function ChownedPods(pods: seq<Pod>): set<nat> {
    set i: nat | i < |pods| && CHOWN_CONTAINER in pods[i].initContainers
                 && ExitedZero(pods[i].initStatuses, CHOWN_CONTAINER)
  }

  /** The recorded version leaves the 8.0 line for the 8.4 line only after the data directory has been
      chowned on at least spec.replicas pods, and every ready server reported the recorded version
      (or the unset version 0.0.0, see ZeroAnswerIsOverruled). */
  lemma ChownBeforeRecording84(w: World, e: Env)
    requires w.spec.hasPVC && w.spec.percona
    requires Line(w.status.applied) == 1 && Line(Reconciled(w, e).world.status.applied) == 2
    ensures w.spec.replicas.Some? && |ChownedPods(e.podsAtEnd)| >= w.spec.replicas.value
    ensures ReadyPods(e.podsAtEnd) != []
    ensures forall p :: p in ReadyPods(e.podsAtEnd) ==>
              p.answer == Some(Reconciled(w, e).world.status.applied) || p.answer == Some(ZERO)
    ensures (forall p :: p in ReadyPods(e.podsAtEnd) ==> p.answer == Some(Reconciled(w, e).world.status.applied))
            <==> ReadyPods(e.podsAtEnd)[0].answer == Some(Reconciled(w, e).world.status.applied)
  {
    RecordedOnlyAfterRollout(w, e);
    var w' := Reconciled(w, e).world;
    var v := w'.status.applied;
    ProfileIndexIsLine(v);
    ProfileIndexIsLine(w.spec.desired);
    var c := Recorded(w.spec, w.status.applied);
    ChownOnThePath(c);
    assert CHOWN_CONTAINER in InitContainers(c, w.spec.desired);
    RolloutDoneRanEveryStep(c, Some(w'.sts.value.(readyReplicas := e.readyAtEnd)), e.podsAtEnd, CHOWN_CONTAINER);
    AgreementUpToZero(e.credentialsAtEnd, e.podsAtEnd, v);
    UnanimousExactly(e.credentialsAtEnd, e.podsAtEnd, v);
  }

  /* ---- whole runs ---- */

  lemma StepKeepsTheLine(w: World, ev: Event)
    requires Supported(w.status.applied)
    ensures var v := Step(w, ev).world.status.applied;
            Supported(v) && Line(w.status.applied) <= Line(v) <= Line(w.status.applied) + 1
  {
    if ev.Reconcile? {
      ReconcileKeepsTheLine(w, ev.env);
    }
  }

  lemma AfterSnoc(w: World, run: seq<Event>, k: nat)
    requires k < |run|
    ensures After(w, run[..k + 1]) == Step(After(w, run[..k]), run[k]).world
  {
    assert run[..k + 1][..k] == run[..k];
  }

  /** Once a supported version is recorded, along every run a supported version stays recorded and the
      recorded line never falls. */
  lemma {:induction false} RunNeverLosesTheLine(w: World, run: seq<Event>, i: nat, j: nat)
    requires Supported(w.status.applied) && i <= j <= |run|
    ensures Supported(After(w, run[..j]).status.applied)
    ensures LineAfter(w, run, i) <= LineAfter(w, run, j)
    decreases j
  {
    if j > 0 {
      RunNeverLosesTheLine(w, run, if i < j then i else j - 1, j - 1);
      AfterSnoc(w, run, j - 1);
      StepKeepsTheLine(After(w, run[..j - 1]), run[j - 1]);
    }
  }

  /** No event of any run raises the recorded line by more than one. */
  lemma EveryEventRaisesByOne(w: World, run: seq<Event>, k: nat)
    requires Supported(w.status.applied) && k < |run|
    ensures LineAfter(w, run, k + 1) <= LineAfter(w, run, k) + 1
  {
    RunNeverLosesTheLine(w, run, k, k);
    AfterSnoc(w, run, k);
    StepKeepsTheLine(After(w, run[..k]), run[k]);
  }

  /** Each template that an event of a run writes is accepted from the version recorded at that moment. */
  lemma EveryEventOfARun(w: World, run: seq<Event>, k: nat)
    requires Supported(w.status.applied) && k < |run|
    ensures var before := After(w, run[..k]);
            var write := Step(before, run[k]).write;
            write.Some? ==> write.value.from == before.status.applied && Accepts(write.value.from, write.value.to)
  {
    RunNeverLosesTheLine(w, run, k, k);
    var before := After(w, run[..k]);
    if run[k].Reconcile? {
      WrittenTemplateIsAccepted(before, run[k].env);
    }
  }

  /** A run that takes the recorded version from 5.x to 8.4 or later has an 8.0 version recorded on
      the way. */
  lemma {:induction false} RunPassesThrough80(w: World, run: seq<Event>, j: nat)
    requires j <= |run| && Line(w.status.applied) == 0 && LineAfter(w, run, j) == 2
    ensures exists k :: 0 < k < j && LineAfter(w, run, k) == 1
    decreases j
  {
    assert j > 0;
    RunNeverLosesTheLine(w, run, 0, j - 1);
    EveryEventRaisesByOne(w, run, j - 1);
    if LineAfter(w, run, j - 1) == 2 {
      RunPassesThrough80(w, run, j - 1);
    }
  }

  /** The template is never behind the recorded line and at most one line ahead of it. */
  predicate TemplateInStep(w: World) {
    w.sts.Some? ==> Line(w.status.applied) <= Line(w.sts.value.version) <= Line(w.status.applied) + 1
  }

  lemma StepKeepsTemplateInStep(w: World, ev: Event)
    requires Supported(w.status.applied) && TemplateInStep(w)
    ensures TemplateInStep(Step(w, ev).world)
  {
    if ev.Reconcile? {
      var o := Reconciled(w, ev.env);
      WrittenTemplateIsAccepted(w, ev.env);
      NoWriteNoChange(w, ev.env);
      RecordedOnlyAfterRollout(w, ev.env);
      if o.world.status.applied != w.status.applied {
        ProfileIndexIsLine(o.world.status.applied);
        ProfileIndexIsLine(w.spec.desired);
      } else if o.write.Some? {
        AcceptedStep(o.write.value.from, o.write.value.to);
      }
    }
  }

  lemma {:induction false} RunKeepsTemplateInStep(w: World, run: seq<Event>)
    requires Supported(w.status.applied) && TemplateInStep(w)
    ensures TemplateInStep(After(w, run))
  {
    if run != [] {
      var k := |run| - 1;
      RunKeepsTemplateInStep(w, run[..k]);
      RunNeverLosesTheLine(w, run, 0, k);
      StepKeepsTemplateInStep(After(w, run[..k]), run[k]);
    }
  }

  /** Every ready server reported `v` or 0.0.0, and all of them `v` exactly when the first did. */
  ghost predicate ServersAgreed(pods: seq<Pod>, v: Version) {
    && ReadyPods(pods) != []
    && (forall p :: p in ReadyPods(pods) ==> p.answer == Some(v) || p.answer == Some(ZERO))
    && ((forall p :: p in ReadyPods(pods) ==> p.answer == Some(v)) <==> ReadyPods(pods)[0].answer == Some(v))
  }

  /** On every run, whenever the recorded line goes from 8.0 to 8.4 on a Percona cluster with a volume,
      the chown has run and the servers agree. */
  lemma RunChownsBefore84(w: World, run: seq<Event>, k: nat)
    requires k < |run| && LineAfter(w, run, k) == 1 && LineAfter(w, run, k + 1) == 2
    ensures run[k].Reconcile?
    ensures var spec := After(w, run[..k]).spec;
            spec.hasPVC && spec.percona ==>
              spec.replicas.Some? && |ChownedPods(run[k].env.podsAtEnd)| >= spec.replicas.value
              && ServersAgreed(run[k].env.podsAtEnd, After(w, run[..k + 1]).status.applied)
  {
    AfterSnoc(w, run, k);
    var before := After(w, run[..k]);
    if before.spec.hasPVC && before.spec.percona {
      ChownBeforeRecording84(before, run[k].env);
    }
  }

  /* ---- the UpgradeBlocked condition ---- */

  /** Recording `v` at the end: the desired version is not just a downgrade within its profile or what is already
      recorded, the rollout of the template written is done, and the ready servers agree on a `v` of its profile. */
  ghost predicate RecordsAtEnd(w: World, e: Env, v: Version) {
    && !(ProfilesMatch(w.status.applied, w.spec.desired) && !w.status.applied.Less(w.spec.desired))
    && RolloutDone(InMemory(w), Some(SyncedTemplate(InMemory(w), w.sts).(readyReplicas := e.readyAtEnd)), e.podsAtEnd)
    && Observe(e.credentialsAtEnd, e.podsAtEnd) == Agreed(v) && ProfilesMatch(v, w.spec.desired)
  }

  /** With these failing calls a reconcile with an accepted path returns before the template is written, or comes
      to nothing else that is stored. */
  predicate StopsEarly(fault: Fault) {
    fault == AtEntry || fault == AtPodList || fault == AtAnnotations || fault == BeforeTemplate
  }

  /** A reconcile that finds a recorded version and an acceptable spec clears UpgradeBlocked in memory. It is
      cleared in the stored status exactly when another change of the status is stored: of the number of ready
      nodes, by the update that is deferred to the end, or of the recorded version, by its own update or that one. */
  lemma BlockedIsClearedExactly(w: World, e: Env)
    requires !w.status.applied.IsZero() && EnsureChecked(InMemory(w)) == Proceed
    requires w.status.upgradeBlocked == Some(True)
    ensures Reconciled(w, e).world.status.upgradeBlocked == Some(False) <==>
            var nodesChanged := ReadyReplicas(w.sts) != w.status.readyNodes;
            if StopsEarly(e.fault) then false
            else if e.fault == NoFault then (exists v :: RecordsAtEnd(w, e, v)) || (e.deferredOk && nodesChanged)
            else if e.fault == AtRecordPersist then
              e.deferredOk && (nodesChanged || exists v :: RecordsAtEnd(w, e, v) && v != w.status.applied)
            else e.deferredOk && nodesChanged
  {
    if e.fault != AtEntry && e.fault != AtPodList {
      ReconciledProceeds(w, e);
      AdvanceRecords(w, e);
    }
  }

  /** The version that the end of an accepted reconcile moves to. */
  lemma AdvanceRecords(w: World, e: Env)
    requires !w.status.applied.IsZero()
    ensures var c := w.status.(upgradeBlocked := Some(False), readyNodes := ReadyReplicas(w.sts));
            var cFalse := InMemory(w).(status := w.status.(upgradeBlocked := Some(False)));
            forall v :: RecordsAtEnd(w, e, v) <==>
              SyncAppliedVersion(InMemory(w).(status := c),
                                 Some(SyncedTemplate(cFalse, w.sts).(readyReplicas := e.readyAtEnd)),
                                 e.credentialsAtEnd, e.podsAtEnd) == Some(v)
  {
    var c := InMemory(w);
    var cFalse := c.(status := w.status.(upgradeBlocked := Some(False)));
    OnlySpecAndAppliedMatter(c, cFalse, w.sts, RolloutMySQLVersion(c, w.sts));
    assert SyncedTemplate(c, w.sts) == SyncedTemplate(cFalse, w.sts);
  }

  /** A cluster that was blocked, and whose owner goes back to the version that is recorded, stays marked as
      blocked however often it is reconciled. */
  lemma BlockedMayStay(spec: Spec, e: Env)
    requires spec.desired == Version(8, 0, 36) && e.fault == NoFault
    ensures var w := World(spec, Status(Version(8, 0, 36), 2, Some(True)),
                           Some(StatefulSet(Version(8, 0, 36),
                                            InitContainers(Recorded(spec, Version(8, 0, 36)), spec.desired), 2)));
            EnsureChecked(InMemory(w)) == Proceed && Reconciled(w, e).world == w
  {
    var v := Version(8, 0, 36);
    var w := World(spec, Status(v, 2, Some(True)), Some(StatefulSet(v, InitContainers(Recorded(spec, v), v), 2)));
    ReconciledProceeds(w, e);
    var cFalse := InMemory(w).(status := w.status.(upgradeBlocked := Some(False)));
    OnlySpecAndAppliedMatter(InMemory(w), cFalse, w.sts, v);
    OnlySpecAndAppliedMatter(InMemory(w), Recorded(spec, v), w.sts, v);
  }

  lemma ReconciledProceeds(w: World, e: Env)
    requires !w.status.applied.IsZero() && EnsureChecked(InMemory(w)) == Proceed
    requires e.fault != AtEntry && e.fault != AtPodList
    ensures Reconciled(w, e) == Proceeded(InMemory(w), w, e)
  {
    assert !NeedsAppliedBackfill(InMemory(w));
  }
}
