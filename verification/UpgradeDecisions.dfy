/** The pure decisions of a MySQL version upgrade: is a change pending, may it go on, which version
    and which init containers belong on the StatefulSet template. */
module UpgradeDecisions {
  import opened Common
  import opened Versions

  /** The part of the spec that an upgrade reads. `desired` is spec.mysqlVersion already parsed and
      `percona` says whether the image resolved for it is a Percona image. */
  datatype Spec = Spec(desired: Version, replicas: Option<int>, hasPVC: bool, percona: bool, userInits: seq<string>)

  /** `applied` is ZERO until a version has been recorded; `upgradeBlocked` is the condition of that
      name, None when it was never written. */
  datatype Status = Status(applied: Version, readyNodes: int, upgradeBlocked: Option<ConditionStatus>)

  datatype Cluster = Cluster(spec: Spec, status: Status)

  /** A StatefulSet: the version readable from its template (ZERO if none is), the names of the init
      containers on the template, and how many replicas are ready. */
  datatype StatefulSet = StatefulSet(version: Version, inits: seq<string>, readyReplicas: int)

  predicate HasMySQLData(c: Cluster) { c.spec.hasPVC && c.status.readyNodes > 0 }

  predicate VersionChangePending(desired: Version, applied: Version, hasData: bool) {
    if applied.IsZero() then hasData
    else if !ProfilesMatch(applied, desired) then true
    else applied.Less(desired)
  }

  predicate ChangePending(c: Cluster) {
    VersionChangePending(c.spec.desired, c.status.applied, HasMySQLData(c))
  }

  function SemVerFromStatefulSet(sts: Option<StatefulSet>): Version {
    if sts.None? then ZERO else sts.value.version
  }

  function LaggingStatefulSetVersion(c: Cluster, sts: Option<StatefulSet>): Version {
    var v := SemVerFromStatefulSet(sts);
    if !v.IsZero() && v != c.spec.desired then v else ZERO
  }

  function SourceVersionForUpgrade(c: Cluster): Version { c.status.applied }

  /** The version that SQL against a live server should be written for. */
  function EffectiveVersion(c: Cluster, sts: Option<StatefulSet>): Version {
    if !c.status.applied.IsZero() then c.status.applied
    else
      var lag := LaggingStatefulSetVersion(c, sts);
      if !lag.IsZero() then lag else c.spec.desired
  }

  datatype Verdict = Proceed | Hold | Blocked(reason: PathVerdict)

  function EnsureChecked(c: Cluster): Verdict {
    if !ChangePending(c) then Proceed
    else
      var source := SourceVersionForUpgrade(c);
      if source.IsZero() then
        if !HasMySQLData(c) then Proceed else Hold
      else
        var path := ValidateUpgradePath(source, c.spec.desired);
        if path != Accepted then Blocked(path) else Proceed
  }

  /** The version the StatefulSet template must run. */
  function RolloutMySQLVersion(c: Cluster, sts: Option<StatefulSet>): Version {
    var desired := c.spec.desired;
    var applied := c.status.applied;
    if !applied.IsZero() && desired.Less(applied) then applied
    else if !ChangePending(c) then desired
    else
      var lag := LaggingStatefulSetVersion(c, sts);
      if applied.IsZero() && HasMySQLData(c) && !lag.IsZero() then lag
      else
        var source := SourceVersionForUpgrade(c);
        if !source.IsZero() && ValidateUpgradePath(source, desired) != Accepted then source
        else desired
  }

  predicate NeedsAppliedBackfill(c: Cluster) { c.status.applied.IsZero() && HasMySQLData(c) }

  /* ---- migration steps ---- */

  const STEP_DATADIR_CHOWN := "datadir-chown"
  const CHOWN_CONTAINER := "mysql-datadir-chown"
  const CLONE_CONTAINER := "clone-and-init"
  const MYSQL_INIT_CONTAINER := "mysql-init-only"

  function StepIDsOnPath(from: Version, to: Version): seq<string> {
    if ProfileFor(from) == Percona80 && ProfileFor(to) == Percona84 then [STEP_DATADIR_CHOWN] else []
  }

  predicate StepScheduled(c: Cluster, step: string) {
    var from := SourceVersionForUpgrade(c);
    !from.IsZero() && step in StepIDsOnPath(from, c.spec.desired)
  }

  predicate ChownApplicable(c: Cluster) {
    var from := SourceVersionForUpgrade(c);
    !from.IsZero() && from != c.spec.desired && c.spec.hasPVC && c.spec.percona
  }

  predicate NeedsDatadirChownInit(c: Cluster) {
    StepScheduled(c, STEP_DATADIR_CHOWN) && ChownApplicable(c)
  }

  /** The user the server container is forced to run as, when the profile forces one. */
  function MysqlRunAsUser(p: Profile, perconaServerImage: bool): Option<int> {
    if p == Percona84 && perconaServerImage then Some(1001) else None
  }

  /** The range ">=5.7.26 <8.0.0 || >=8.0.15", for the profiles that use it. */
  predicate WantsPerconaInitContainer(p: Profile, v: Version) {
    p != FallbackUnknown
    && ((!v.Less(Version(5, 7, 26)) && v.Less(Version(8, 0, 0))) || !v.Less(Version(8, 0, 15)))
  }

  /** The names of the init containers on the template, in order. */
  function InitContainers(c: Cluster, rollout: Version): seq<string> {
    (if NeedsDatadirChownInit(c) && MysqlRunAsUser(ProfileFor(c.spec.desired), c.spec.percona).Some?
     then [CHOWN_CONTAINER] else [])
    + c.spec.userInits
    + [CLONE_CONTAINER]
    + (if c.spec.percona && WantsPerconaInitContainer(ProfileFor(rollout), rollout)
       then [MYSQL_INIT_CONTAINER] else [])
  }

  /* ---- what the decisions agree on ---- */

  /** With a recorded version the template runs the desired version exactly when the path to it is
      accepted, and the recorded one otherwise. */
  lemma RolloutFollowsThePath(c: Cluster, sts: Option<StatefulSet>)
    requires !c.status.applied.IsZero()
    ensures RolloutMySQLVersion(c, sts)
            == if Accepts(c.status.applied, c.spec.desired) then c.spec.desired else c.status.applied
    ensures Accepts(c.status.applied, RolloutMySQLVersion(c, sts))
  {
    var applied, desired := c.status.applied, c.spec.desired;
    if !desired.Less(applied) && !ChangePending(c) {
      assert desired == applied;
    }
  }

  /** A blocked upgrade always pins the template. A pinned template is always a refused path; it is
      reported as blocked except when the refusal is a downgrade inside one profile. */
  lemma BlockedMeansPinned(c: Cluster, sts: Option<StatefulSet>)
    requires !c.status.applied.IsZero()
    ensures EnsureChecked(c) != Hold
    ensures EnsureChecked(c).Blocked? ==> RolloutMySQLVersion(c, sts) == c.status.applied != c.spec.desired
    ensures RolloutMySQLVersion(c, sts) != c.spec.desired <==>
            EnsureChecked(c).Blocked?
            || (ProfilesMatch(c.status.applied, c.spec.desired) && c.spec.desired.Less(c.status.applied))
  {
    RolloutFollowsThePath(c, sts);
  }

  /** Data without a recorded version holds the upgrade, and the template keeps its own version
      whenever that can be read. */
  lemma UnrecordedDataHolds(c: Cluster, sts: Option<StatefulSet>)
    requires c.status.applied.IsZero()
    ensures EnsureChecked(c) == Hold <==> HasMySQLData(c)
    ensures EnsureChecked(c) == Proceed <==> !HasMySQLData(c)
    ensures HasMySQLData(c) && !SemVerFromStatefulSet(sts).IsZero() ==>
              RolloutMySQLVersion(c, sts) == SemVerFromStatefulSet(sts)
    ensures !HasMySQLData(c) || SemVerFromStatefulSet(sts).IsZero() ==>
              RolloutMySQLVersion(c, sts) == c.spec.desired
  {
  }

  /** While an upgrade is held or blocked, SQL is written for the very version the template is
      pinned to. */
  lemma PinnedTemplateMatchesSQLDialect(c: Cluster, sts: Option<StatefulSet>)
    requires EnsureChecked(c) != Proceed
    ensures EffectiveVersion(c, sts) == RolloutMySQLVersion(c, sts)
  {
    if c.status.applied.IsZero() {
      UnrecordedDataHolds(c, sts);
    } else {
      BlockedMeansPinned(c, sts);
    }
  }

  /** The chown container is on the template exactly for a Percona server on a volume whose recorded
      version is in the 8.0 line and whose desired version is in the 8.4 line. */
  lemma ChownInjectedExactly(c: Cluster, rollout: Version)
    requires CHOWN_CONTAINER !in c.spec.userInits
    ensures CHOWN_CONTAINER in InitContainers(c, rollout) <==>
            c.spec.hasPVC && c.spec.percona && Line(c.status.applied) == 1 && Line(c.spec.desired) == 2
  {
    ChownOnThePath(c);
    assert CHOWN_CONTAINER != CLONE_CONTAINER by { assert CHOWN_CONTAINER[0] != CLONE_CONTAINER[0]; }
    assert CHOWN_CONTAINER != MYSQL_INIT_CONTAINER by { assert CHOWN_CONTAINER[6] != MYSQL_INIT_CONTAINER[6]; }
  }

  lemma ChownOnThePath(c: Cluster)
    ensures NeedsDatadirChownInit(c) <==>
            c.spec.hasPVC && c.spec.percona && Line(c.status.applied) == 1 && Line(c.spec.desired) == 2
    ensures NeedsDatadirChownInit(c) ==> MysqlRunAsUser(ProfileFor(c.spec.desired), c.spec.percona).Some?
  {
    ProfileIndexIsLine(c.status.applied);
    ProfileIndexIsLine(c.spec.desired);
  }

  /* ---- the same in the fields of the cluster ---- */

  /** The move is refused, other than as a downgrade within the line of the recorded version. */
  predicate Refused(applied: Version, desired: Version) {
    !MayMove(applied, desired) && !(Line(applied) == Line(desired) && desired.Less(applied))
  }

  /** The verdict: with a recorded version, blocked exactly when the move is refused; without, on hold exactly when
      the cluster has a volume and ready nodes; else the reconcile goes on. */
  lemma VerdictByFields(c: Cluster)
    ensures EnsureChecked(c)
            == if c.status.applied == Version(0, 0, 0) then
                 if c.spec.hasPVC && c.status.readyNodes > 0 then Hold else Proceed
               else if !Refused(c.status.applied, c.spec.desired) then Proceed
               else Blocked(if c.spec.desired.Less(c.status.applied) then Downgrade else SkipsLine)
  {
    var applied, desired := c.status.applied, c.spec.desired;
    if applied != ZERO {
      VerdictExactly(applied, desired);
      SameProfileIsSameLine(applied, desired);
      OrderExactly(applied, desired);
      hide ValidateUpgradePath, ProfilesMatch, Line;
    }
  }

  /** The template's version: with a recorded version, the desired one exactly when it may be moved to; without, the
      one the template has, when it has one and the cluster has a volume and ready nodes, else the desired one. */
  lemma RolloutByFields(c: Cluster, sts: Option<StatefulSet>)
    ensures RolloutMySQLVersion(c, sts)
            == if c.status.applied != Version(0, 0, 0) then
                 if MayMove(c.status.applied, c.spec.desired) then c.spec.desired else c.status.applied
               else if c.spec.hasPVC && c.status.readyNodes > 0 && sts.Some? && sts.value.version != Version(0, 0, 0)
               then sts.value.version else c.spec.desired
  {
    if c.status.applied != ZERO {
      RolloutFollowsThePath(c, sts);
      VerdictExactly(c.status.applied, c.spec.desired);
      hide ValidateUpgradePath, MayMove;
    }
  }

  /** The version SQL is written for: the recorded one, else the template's own, else the desired one. */
  lemma EffectiveByFields(c: Cluster, sts: Option<StatefulSet>)
    ensures EffectiveVersion(c, sts)
            == if c.status.applied != Version(0, 0, 0) then c.status.applied
               else if sts.Some? && sts.value.version != Version(0, 0, 0) then sts.value.version
               else c.spec.desired
  {
  }

  /** The init containers: the chown for a Percona image on a volume that goes from the 8.0 line to the 8.4 line, the
      user's, the cloning one, and, for a Percona image of a server that wants it, the one that initialises mysqld. */
  lemma InitContainersByFields(c: Cluster, rollout: Version)
    ensures InitContainers(c, rollout)
            == (if c.spec.hasPVC && c.spec.percona && Line(c.status.applied) == 1 && Line(c.spec.desired) == 2
                then ["mysql-datadir-chown"] else [])
               + c.spec.userInits + ["clone-and-init"]
               + (if c.spec.percona && Supported(rollout) && !rollout.Less(Version(5, 7, 26))
                     && (rollout.Less(Version(8, 0, 0)) || !rollout.Less(Version(8, 0, 15)))
                  then ["mysql-init-only"] else [])
  {
    ChownOnThePath(c);
    ProfileIndexIsLine(rollout);
    hide NeedsDatadirChownInit, ProfileFor;
    assert WantsPerconaInitContainer(ProfileFor(rollout), rollout) <==>
           Supported(rollout) && !rollout.Less(Version(5, 7, 26))
           && (rollout.Less(Version(8, 0, 0)) || !rollout.Less(Version(8, 0, 15)));
  }

  /** The server runs as user 1001 exactly for a Percona image of the 8.4 line. */
  lemma RunAsUserExactly(v: Version, percona: bool)
    ensures MysqlRunAsUser(ProfileFor(v), percona) == if percona && Line(v) == 2 then Some(1001) else None
  {
    ProfileIndexIsLine(v);
  }
}
