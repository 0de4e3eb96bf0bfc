# Verified model of the MySQL operator

A Dafny model of the parts of the operator in which steps that are small on their own add up to promises
over whole runs: the Orchestrator reconcile, the server version upgrade, and the initialisation of a node, with
the builders of SQL text and sizes that they rest on. `dafny verify dfyconfig.toml` checks everything.

| file | models |
|---|---|
| `Common.dfy` | options, condition statuses, filtering |
| `Versions.dfy` | version order, profile registry, `ValidateUpgradePath` |
| `UpgradeDecisions.dfy` | the version of the StatefulSet template, the upgrade verdict, migration init containers |
| `RolloutObservation.dfy` | which rollouts count as complete, and which version the servers agree on |
| `UpgradeRuns.dfy` | one reconcile of a cluster with each of its failing calls |
| `UpgradeSafety.dfy` | what every run of reconciles, spec edits, readiness changes and deletions keeps |
| `UpgradeOutcomes.dfy` | what one reconcile comes to, in version numbers, failing calls and the state before |
| `Topology.dfy` | finding the master by following master links |
| `Names.dfy` | pod host names, and reading the ordinal back |
| `ClusterStatus.dfy` | cluster and node conditions, changed in place, and their history |
| `Registration.dfy` | which instances are ready, discovered and forgotten |
| `NodeReports.dfy` | the node list after a pass: unreported, left behind and reported nodes |
| `WriteGate.dfy` | which hosts a pass makes writable or read-only |
| `OrcReconcile.dfy` | the pass itself |
| `PassGuarantees.dfy` | what a pass guarantees: time over runs of passes, and each call and condition in the fields read |
| `PodRoles.dfy` | copying the node status to pod labels |
| `NodeInit.dfy` | the init-file and the node controller on their shared status table |
| `NodeOutcomes.dfy` | what init-file and controller leave behind, from what they read |
| `Escaping.dfy`, `SqlBuilder.dfy` | escaping, and queries whose placeholders and arguments must agree |
| `SqlTexts.dfy` | the exact texts and arguments of these queries |
| `Sizes.dfy` | human-readable sizes, and defaults that never override the user |

The environment is explicit. Replies of Orchestrator and of the servers, pod states, exit codes, failing calls and
the clock are parameters or nondeterministic choices, so the statements hold for all of them. Code that
updates objects, lists and maps in place is modelled by classes and loops that are proved equal to
specification functions; the properties are lemmas about those functions.

Where the code differs from what is said or could be expected of it, the model follows the code:

* `UpgradeBlocked` is cleared in memory before the status is compared for changes
  (pkg/controller/mysqlcluster/mysqlcluster_controller.go:295-309), so clearing it alone is not stored
  (`UpgradeSafety.BlockedIsClearedExactly`, and `UpgradeSafety.BlockedMayStay` for a cluster that stays marked).
* The unset version 0.0.0 doubles as "nothing observed yet", so leading answers of 0.0.0 are overruled
  (`RolloutObservation.ZeroAnswerIsOverruled`; agreement means unanimity exactly when the first ready server reported
  the agreed version, `RolloutObservation.UnanimousExactly`).
* A downgrade within a line pins the template but is not reported as blocked (`UpgradeDecisions.BlockedMeansPinned`).
* A version without a profile is not limited to one line per upgrade (`Versions.UnknownSourceMaySkipALine`); the
  statements about runs start from versions of the lines 5.x, 8.0 and 8.4.
* A node may be marked configured without the completion marker, or without its replication source. The
  init-file lives as long as the pod, so mysqld replays it when its container restarts, and the file of a node's
  first start drops the status table (and resets replication after a clone from a bucket). A reconcile
  that is past its checks then marks a table that has just been created anew. `NodeInit.SafeExactlyWithoutHarm` gives
  the exact condition, `NodeInit.SomeFreshRunIsUnsafe` that it fails at every first start, and
  `NodeInit.FreshRunIsSafe` what holds without such a replay. A comment in
  pkg/controller/node/sql.go:119 says that the init-file does not run again on a restart, and one in line 158 that the table is
  in memory; the model follows the statements, which say neither.
* The status of an Orchestrator pass is stored after its calls have been sent, and not at all when the update fails
  (pkg/controller/orchestrator/orchestrator_controller.go:217-225). A pass that finds the cluster not ready but is not
  stored is overlooked by later ones, which may forget hosts within the 30 seconds
  (`PassGuarantees.UnstoredPassIsOverlooked`; `PassGuarantees.GateOfAPass` and `PassGuarantees.ForgetsOnlyAfterGrace` give the exact condition).
* A pod that a scale-down leaves behind keeps its master label as long as it exists
  (`PodRoles.LeftBehindKeepsItsLabel`; `PodRoles.AtMostOneAfterAllSyncs` says exactly when this leaves two labels).
* The pattern for host names accepts no dot in a cluster name or namespace; for such clusters no ordinal is read, so nothing is
  ever dropped from their node list (`Names.OrdinalRoundTrip`, `NodeReports.OwnPodsAreKeptByOrdinal`).
* A question mark in a schema, table, permission or limit name shifts the binding of every later argument
  (`SqlBuilder.UserQueryIsBoundExactly` gives the exact condition).

## Model

| member | source | states |
|---|---|---|
| Versions.ResolveFrom | pkg/mysqlversioning/registry.go:42-51 | the profile found matches, and nothing is found exactly when no profile from that position on matches |
| Versions.IndexFrom | pkg/mysqlversioning/profile_names.go:47-62 | the position of a profile in the upgrade order, which is its first; none exactly when it is not listed |
| Versions.ProfileIndexIsLine | pkg/mysqlversioning/profile_names.go:47-62 | the registry and the upgrade order together compute the line read off the numbers: 5.x, 8.0 to 8.3, 8.4 and later |
| Versions.RegistryOrderIsImmaterial | pkg/mysqlversioning/profiles_builtin.go:149-158 | the built-in profiles exclude one another: any arrangement of them in front of the fallback resolves every version alike |
| Versions.AcceptedExactly | pkg/mysqlversioning/upgrade_path.go:26-48 | exactly which pairs of versions the path check accepts, in terms of the numbers alone; it never reports an unknown profile, and from a supported version it accepts only supported ones |
| Versions.AcceptedStep | pkg/mysqlversioning/upgrade_path.go:26-48 | one accepted upgrade of a supported version never goes down and rises by at most one line |
| Versions.UnknownSourceMaySkipALine | pkg/mysqlversioning/upgrade_path.go:26-48 | from 7.0.0, a version without a profile of its own, the check accepts 8.4.0: why such versions are set apart |
| Versions.VerdictExactly | pkg/mysqlversioning/upgrade_path.go:26-48 | every verdict of the path check from the version numbers: equal, or newer and at most one line up, is accepted; else an older target is a downgrade and any other skips a line |
| Versions.SameProfileIsSameLine | pkg/mysqlversioning/version_state.go:21-23 | two versions share a profile exactly when they are of the same line |
| Versions.ChainNeverLosesALine | pkg/mysqlversioning/upgrade_path.go:26-48 | along every chain of accepted upgrades from a supported version, all versions are supported and neither version nor line ever falls |
| Versions.ChainPassesThrough80 | pkg/mysqlversioning/upgrade_path.go:26-48 | every accepted chain from 5.x to 8.4 or later contains a version of the 8.0 line strictly in between |
| UpgradeDecisions.RolloutFollowsThePath | pkg/controller/mysqlcluster/internal/versionupgrade/rollout.go:29-60 | with a recorded version the template runs the desired version if and only if the path is accepted, else the recorded one, and what it runs is always accepted from the recorded one |
| UpgradeDecisions.BlockedMeansPinned | pkg/controller/mysqlcluster/internal/versionupgrade/checker.go:66-84 | a blocked verdict implies a pinned template; exactly which pinned templates are not reported as blocked |
| UpgradeDecisions.UnrecordedDataHolds | pkg/controller/mysqlcluster/internal/versionupgrade/checker.go:66-84 | without a recorded version, the verdict is hold exactly when the cluster has data, and then the template keeps its own readable version |
| UpgradeDecisions.PinnedTemplateMatchesSQLDialect | pkg/internal/mysqlcluster/version.go:55-80 | while an upgrade is held or blocked, SQL is written for the version the template is pinned to |
| UpgradeDecisions.ChownInjectedExactly | pkg/controller/mysqlcluster/internal/syncer/statefullset.go:384-443 | exactly when the template carries the datadir-chown container |
| UpgradeDecisions.ChownOnThePath | pkg/controller/mysqlcluster/internal/versionupgrade/upgrade_paths.go:41-85 | the chown is needed exactly for a Percona image on a volume that goes from the 8.0 line to the 8.4 line, and then the user to run as is known |
| UpgradeDecisions.VerdictByFields | pkg/controller/mysqlcluster/internal/versionupgrade/checker.go:66-84 | every verdict in version numbers: with a recorded version blocked exactly when the desired one is neither equal nor accepted, nor older within its line; without, on hold exactly with a volume and ready nodes |
| UpgradeDecisions.RolloutByFields | pkg/controller/mysqlcluster/internal/versionupgrade/rollout.go:29-60 | the version of the template in version numbers, recorded or not |
| UpgradeDecisions.EffectiveByFields | pkg/internal/mysqlcluster/version.go:55-80 | the version SQL is written for: the recorded one, else the template's, else the desired one |
| UpgradeDecisions.InitContainersByFields | pkg/controller/mysqlcluster/internal/syncer/statefullset.go:384-417 | the init containers of a template, all of them and in order, from image, volume and version numbers |
| UpgradeDecisions.RunAsUserExactly | pkg/mysqlversioning/profiles_builtin.go:138-143 | the server runs as user 1001 exactly for a Percona image of the 8.4 line |
| RolloutObservation.InitContainerSucceeded | pkg/controller/mysqlcluster/internal/versionupgrade/rollout_complete.go:87-98 | true exactly when the container's first status says that it exited 0 |
| RolloutObservation.AllInitContainersSucceeded | pkg/controller/mysqlcluster/internal/versionupgrade/rollout_complete.go:78-85 | true exactly when every named container exited 0 |
| RolloutObservation.PodHasTemplateInitContainers | pkg/controller/mysqlcluster/internal/versionupgrade/rollout_complete.go:62-76 | true exactly when the pod carries every container of the template |
| RolloutObservation.PodTemplateInitContainersSucceeded | pkg/controller/mysqlcluster/internal/versionupgrade/rollout_complete.go:43-60 | true exactly when at least as many pods as replicas carried and finished every template container |
| RolloutObservation.RolloutComplete | pkg/controller/mysqlcluster/internal/versionupgrade/rollout_complete.go:28-41 | true exactly when the rollout of the desired version is done |
| RolloutObservation.RolloutDoneRanEveryStep | pkg/controller/mysqlcluster/internal/versionupgrade/rollout_complete.go:28-98 | a done rollout ran each template init container to exit 0 on at least spec.replicas pods that carried it |
| RolloutObservation.PodMysqlReady | pkg/controller/mysqlcluster/internal/versionupgrade/server_version.go:117-137 | true exactly for a pod with a container named mysql and a Ready condition that is True |
| RolloutObservation.ReadyMysqlPods | pkg/controller/mysqlcluster/internal/versionupgrade/server_version.go:105-115 | the ready pods, in order |
| RolloutObservation.ObserveDataPlaneVersionSQL | pkg/controller/mysqlcluster/internal/versionupgrade/server_version.go:64-103 | the loop with its sentinel agrees with a declarative reading of the answers |
| RolloutObservation.ObserveAgrees | pkg/controller/mysqlcluster/internal/versionupgrade/server_version.go:64-103 | a version is agreed on exactly with usable credentials and answers that are zeros followed by that version only |
| RolloutObservation.AgreementIsUnanimous | pkg/controller/mysqlcluster/internal/versionupgrade/server_version.go:64-103 | when no server reports 0.0.0, a version is agreed on if and only if some pod is ready and every ready pod reports it |
| RolloutObservation.ZeroAnswerIsOverruled | pkg/controller/mysqlcluster/internal/versionupgrade/server_version.go:64-103 | a counterexample: the sentinel lets a first answer of 0.0.0 be overruled, and only a first one |
| RolloutObservation.UnanimousExactly | pkg/controller/mysqlcluster/internal/versionupgrade/server_version.go:64-103 | an agreed version was reported by every ready server if and only if the first ready server in the list reported it |
| RolloutObservation.AgreementUpToZero | pkg/controller/mysqlcluster/internal/versionupgrade/server_version.go:64-103 | in every case each ready server reported the agreed version or 0.0.0 |
| UpgradeRuns.ReconcileMysqlCluster.SyncStatefulSet | pkg/controller/mysqlcluster/internal/syncer/statefullset.go:104-152 | writes the decided template, or fails and changes nothing |
| UpgradeRuns.ReconcileMysqlCluster.AdvanceOf | pkg/controller/mysqlcluster/internal/versionupgrade/checker.go:87-104 | the version to record at the end of a reconcile, if any |
| UpgradeRuns.ReconcileMysqlCluster.Proceeding | pkg/controller/mysqlcluster/mysqlcluster_controller.go:278-387 | the part of a reconcile after a successful check, with every failing call: the new state and the template write |
| UpgradeRuns.ReconcileMysqlCluster.Reconcile | pkg/controller/mysqlcluster/mysqlcluster_controller.go:150-390 | one whole reconcile over stored status and StatefulSet equals the outcome function, for every failing call |
| UpgradeSafety.OnlySpecAndAppliedMatter | pkg/controller/mysqlcluster/internal/versionupgrade/rollout.go:29-60 | template and verdict depend on the spec and the recorded version alone |
| UpgradeSafety.RecordedOnlyAfterRollout | pkg/controller/mysqlcluster/mysqlcluster_controller.go:226-387 | a reconcile changes the recorded version only after it wrote an accepted template whose rollout is done and on whose line the ready servers agree |
| UpgradeSafety.ReconcileKeepsTheLine | pkg/controller/mysqlcluster/mysqlcluster_controller.go:226-387 | a reconcile never loses the recorded line and raises it by at most one |
| UpgradeSafety.WrittenTemplateIsAccepted | pkg/controller/mysqlcluster/mysqlcluster_controller.go:226-387 | every template written is accepted from the version recorded at that moment, and is the one then stored |
| UpgradeSafety.NoWriteNoChange | pkg/controller/mysqlcluster/mysqlcluster_controller.go:226-387 | without a template write the StatefulSet is untouched |
| UpgradeSafety.UnrecordedTemplateIsKept | pkg/controller/mysqlcluster/mysqlcluster_controller.go:226-277 | data without a recorded version: a template written keeps its own version, or follows the path from a version that the servers just agreed on |
| UpgradeSafety.ChownBeforeRecording84 | pkg/controller/mysqlcluster/internal/versionupgrade/checker.go:87-104 | 8.0 to 8.4 is recorded, for Percona on a volume, only when the chown exited 0 on at least spec.replicas pods that carried it and each ready server reported the recorded version or 0.0.0: all of them the recorded one if and only if the first did |
| UpgradeSafety.RunNeverLosesTheLine | pkg/controller/mysqlcluster/mysqlcluster_controller.go:226-387 | on every run of reconciles, spec edits, readiness changes and deletions, the recorded version stays supported and its line never falls |
| UpgradeSafety.EveryEventRaisesByOne | pkg/controller/mysqlcluster/mysqlcluster_controller.go:226-387 | no event of any run raises the recorded line by more than one |
| UpgradeSafety.EveryEventOfARun | pkg/controller/mysqlcluster/mysqlcluster_controller.go:226-387 | each template that any event of any run writes is accepted from the version recorded just before it |
| UpgradeSafety.RunPassesThrough80 | pkg/controller/mysqlcluster/mysqlcluster_controller.go:226-387 | a run from 5.x to 8.4 or later records an 8.0 version strictly in between |
| UpgradeSafety.RunKeepsTemplateInStep | pkg/controller/mysqlcluster/mysqlcluster_controller.go:226-387 | on every run the template is never behind the recorded line and never more than one line ahead |
| UpgradeSafety.RunChownsBefore84 | pkg/controller/mysqlcluster/internal/versionupgrade/checker.go:87-104 | the same at each step of every run at which the recorded line goes from 8.0 to 8.4 |
| UpgradeSafety.BlockedIsClearedExactly | pkg/controller/mysqlcluster/mysqlcluster_controller.go:278-387 | once the spec is acceptable again, for every failing call: UpgradeBlocked is cleared in the stored status if and only if a change of the ready nodes is stored at the end or a version is recorded, after a done rollout on which the servers agree |
| UpgradeSafety.BlockedMayStay | pkg/controller/mysqlcluster/mysqlcluster_controller.go:278-387 | a cluster whose owner goes back to the recorded version stays marked as blocked, reconcile after reconcile |
| UpgradeOutcomes.RefusedExactly | pkg/controller/mysqlcluster/mysqlcluster_controller.go:249-293 | a recorded version and a refused desired one, for every failing call: once the status is stored, UpgradeBlocked is True, and the template pinned to the recorded version is written unless a call up to that write fails |
| UpgradeOutcomes.NotRefusedExactly | pkg/controller/mysqlcluster/mysqlcluster_controller.go:294-387 | a desired version that is not refused, for every failing call: the template written, and at the end, when the status is stored, UpgradeBlocked False, the ready nodes and the version come to |
| UpgradeOutcomes.BackfillExactly | pkg/controller/mysqlcluster/mysqlcluster_controller.go:226-247 | data without a recorded version, for every answer of the servers: kept waiting with its own template, recorded at once when they agree, cleared of a stale UpgradeBlocked when they agree on 0.0.0 |
| UpgradeOutcomes.BlockedExactly | pkg/controller/mysqlcluster/mysqlcluster_controller.go:249-309 | what every reconcile with a recorded version stores as UpgradeBlocked, from version numbers, the failing call and the state before: True exactly when the desired version is refused and the status update goes through |
| UpgradeOutcomes.AdvanceExactly | pkg/controller/mysqlcluster/internal/versionupgrade/checker.go:87-104 | a version is recorded exactly after the done rollout of a newer version or another line, and it is the one the servers agree on |
| UpgradeOutcomes.ExitedZeroExactly | pkg/controller/mysqlcluster/internal/versionupgrade/rollout_complete.go:87-98 | of the statuses under a container's name the first one decides, and it must say 0 |
| UpgradeOutcomes.RolloutDoneExactly | pkg/controller/mysqlcluster/internal/versionupgrade/rollout_complete.go:28-98 | a rollout is done exactly when the template runs the desired version, at least one replica is wanted, so many are ready and so many pods carry and have finished every init container of the template |
| UpgradeOutcomes.ReadyExactly | pkg/controller/mysqlcluster/internal/versionupgrade/server_version.go:105-137 | a pod is asked for its version exactly when it has a container named mysql and a Ready condition that is True |
| Topology.GetInstance | pkg/controller/orchestrator/orchestrator_reconcile.go:585-593 | the first instance with the host name; none exactly when there is none |
| Topology.MasterForNodeExactly | pkg/controller/orchestrator/orchestrator_reconcile.go:595-621 | for distinct hosts, what is found is exactly what the master links lead to; nothing is found exactly when they cycle, leave the list or end at a co-master without its partner, and these exclude one another |
| Topology.DetermineMaster | pkg/controller/orchestrator/orchestrator_reconcile.go:624-650 | the loop yields the instance that the master found for every node agrees on, if any (in fields: DeterminedByFields) |
| Topology.DeterminedExactlyForTrees | pkg/controller/orchestrator/orchestrator_reconcile.go:595-650 | without co-masters, m is determined if and only if the links form a tree over the list with m its only node without a followed link |
| Topology.DeterminedByFields | pkg/controller/orchestrator/orchestrator_reconcile.go:595-650 | without co-masters, m is determined if and only if it is the one instance without a master key or detached, and from every instance the chain of master keys stays in the list and reaches m |
| Topology.MasterForNodeByKind | pkg/controller/orchestrator/orchestrator_reconcile.go:595-621 | what each kind of node gives: itself without a master key or when detached, its partner for a co-master, what its master gives for any other, nothing when that is not listed |
| Topology.CoMasterPairIsUndecided | pkg/controller/orchestrator/orchestrator_reconcile.go:595-650 | two co-masters that name each other leave the cluster without a determined master |
| Topology.ReorderedMasterForNode | pkg/controller/orchestrator/orchestrator_reconcile.go:595-621 | the master found for a node does not depend on the order of the list |
| Topology.ReorderedMaster | pkg/controller/orchestrator/orchestrator_reconcile.go:624-650 | the same master, or none, for every permutation of the list |
| Topology.MasterIsListed | pkg/controller/orchestrator/orchestrator_reconcile.go:595-621 | the master found from a node of the list is in the list |
| Names.HostnameInjective | pkg/internal/mysqlcluster/mysqlcluster.go:154-158 | different ordinals have different host names |
| Names.DecimalRoundTrip | pkg/internal/mysqlcluster/mysqlcluster.go:154-158 | a number is read back from its decimal digits |
| Names.CapturesExactly | pkg/controller/orchestrator/orchestrator_reconcile.go:498-507 | the ordinal's digits are captured from a name if and only if the name has the expected form with these digits |
| Names.OrdinalRoundTrip | pkg/controller/orchestrator/orchestrator_reconcile.go:498-507 | the ordinal is read back from a pod's host name if and only if cluster and namespace are plain words and it is below 2^31; without plain words none is read |
| Names.CapturedNeedsPlainNames | pkg/controller/orchestrator/orchestrator_reconcile.go:498-507 | an ordinal is captured from a pod's host name only when cluster and namespace are plain words |
| Names.PodNameRoundTrip | pkg/controller/mysqlcluster/internal/syncer/pod.go:123-125 | the pod name is read back from its host name if and only if the cluster name has no dot |
| Names.PodHostnameText | pkg/internal/mysqlcluster/mysqlcluster.go:129-158 | the host name of a pod, letter by letter |
| Names.WordCharsExactly | pkg/controller/orchestrator/orchestrator_reconcile.go:498-507 | letters, digits, underscore and hyphen are the characters of a plain word |
| Names.OldHostnameIsRead | pkg/controller/orchestrator/orchestrator_reconcile.go:498-507 | the ordinal is also read from the host names of the old headless service |
| ClusterStatus.SetThenFind | pkg/internal/mysqlcluster/status.go:35-72 | a write stores status and, on a flip, time, touches no other condition and keeps the types distinct |
| ClusterStatus.StoredExactlyWhenWritten | pkg/internal/mysqlcluster/status.go:35-72 | over any run of writes, a condition is stored exactly when it was ever written |
| ClusterStatus.TransitionTimeIsLastFlip | pkg/internal/mysqlcluster/status.go:35-72 | over any run of writes, what is stored is the status and the time of the last flip |
| ClusterStatus.ReadyForMeansUnbroken | pkg/controller/orchestrator/orchestrator_reconcile.go:360-422 | with a clock that never runs backwards, the time gate is open if and only if a Ready write older than the grace time wrote True and so did all since |
| ClusterStatus.OpenGateHasOnlyTrue | pkg/controller/orchestrator/orchestrator_reconcile.go:360-377 | while the gate is open every Ready write within the grace time wrote True |
| ClusterStatus.SetNodeThenLookup | pkg/internal/mysqlcluster/status.go:94-143 | a write to a node condition sets that condition of that node and no other |
| ClusterStatus.SetNodeKeepsNames | pkg/internal/mysqlcluster/status.go:94-185 | it adds the named node when it is missing, and no other |
| ClusterStatus.SetNodeKeepsWellFormed | pkg/internal/mysqlcluster/status.go:94-185 | it keeps node names distinct and the condition types of each node distinct |
| ClusterStatus.WithNodeKeeps | pkg/internal/mysqlcluster/status.go:158-168 | looking up a missing node adds it without conditions, which changes no condition and keeps the list well-formed |
| ClusterStatus.MysqlCluster.FindCondIndex | pkg/internal/mysqlcluster/status.go:74-82 | the position of a cluster condition, if any |
| ClusterStatus.MysqlCluster.UpdateStatusCondition | pkg/internal/mysqlcluster/status.go:35-72 | the update in place does what the condition write says |
| ClusterStatus.MysqlCluster.GetClusterCondition | pkg/internal/mysqlcluster/status.go:85-92 | the stored condition, if any |
| ClusterStatus.MysqlCluster.GetNodeStatusIndex | pkg/internal/mysqlcluster/status.go:158-168 | the position of a node, which is appended when missing |
| ClusterStatus.MysqlCluster.UpdateNodeConditionStatus | pkg/internal/mysqlcluster/status.go:94-143 | the update in place does what the node write says |
| ClusterStatus.MysqlCluster.FindNodeConditionIndex | pkg/internal/mysqlcluster/status.go:147-155 | the position of a node condition, if any |
| ClusterStatus.MysqlCluster.GetNodeCondition | pkg/internal/mysqlcluster/status.go:171-179 | the stored node condition; the node list gains the node when missing |
| ClusterStatus.MysqlCluster.GetMasterHost | pkg/internal/mysqlcluster/mysqlcluster.go:166-177 | the last node in the list that is marked master, or pod 0 exactly when none is; the list is unchanged |
| Registration.ReadyInstancesExactly | pkg/controller/orchestrator/orchestrator_reconcile.go:312-358 | the ready instances are exactly the registered desired pods, each once |
| Registration.DiscoversExactly | pkg/controller/orchestrator/orchestrator_reconcile.go:312-358 | discovered are exactly the unregistered pods with ordinal below min(replicas, readyNodes), each once |
| Registration.ForgetsExactly | pkg/controller/orchestrator/orchestrator_reconcile.go:312-358 | forgotten are exactly the keys of instances that no ready instance shares the host with |
| Registration.ForgetsOnce | pkg/controller/orchestrator/orchestrator_reconcile.go:312-358 | no key is forgotten twice |
| Registration.InstancesArePartitioned | pkg/controller/orchestrator/orchestrator_reconcile.go:312-358 | every instance is ready or forgotten, never both, none lost and none repeated |
| Registration.NextPassIsQuiet | pkg/controller/orchestrator/orchestrator_reconcile.go:312-388 | once all discover and forget calls have taken effect, the next pass discovers and forgets nothing |
| NodeReports.LastWriteWins | pkg/controller/orchestrator/orchestrator_reconcile.go:460-462 | over any run of node writes, each condition is what its last write said, the list stays well-formed and gains only written nodes |
| NodeReports.UnknownExactly | pkg/controller/orchestrator/orchestrator_reconcile.go:466-495 | Unknown is written to exactly the conditions of listed nodes that are not reported |
| NodeReports.KeptExactly | pkg/controller/orchestrator/orchestrator_reconcile.go:480-495 | the compaction keeps exactly the nodes that pass the test, and keeps the list well-formed |
| NodeReports.KeptCond | pkg/controller/orchestrator/orchestrator_reconcile.go:480-495 | a kept node has its conditions as before, a dropped one has none |
| NodeReports.OwnPodsAreKeptByOrdinal | pkg/controller/orchestrator/orchestrator_reconcile.go:480-507 | of a cluster's own pods exactly those with a desired ordinal and no old name are kept; without plain names all are |
| NodeReports.ReportExactly | pkg/controller/orchestrator/orchestrator_reconcile.go:210-272 | after a whole report each condition of a reported node is what its instance says, and nothing is written about others |
| NodeReports.CondAfterPass | pkg/controller/orchestrator/orchestrator_reconcile.go:209-272 | every condition of every node after a pass, in terms of the report and the list before |
| NodeReports.NamesAfterPass | pkg/controller/orchestrator/orchestrator_reconcile.go:209-272 | listed after a pass are exactly the nodes that were and are kept, and those that the report wrote to |
| NodeReports.MasterAfterPass | pkg/controller/orchestrator/orchestrator_reconcile.go:210-272 | after a pass a node is marked master if and only if its instance was skipped and it was marked before, or was checked recently and is the given master |
| NodeReports.AtMostOneMaster | pkg/controller/orchestrator/orchestrator_reconcile.go:209-272 | without skipped instances at most one node is marked master, and it is the given master |
| NodeReports.ReportedByFields | pkg/controller/orchestrator/orchestrator_reconcile.go:219-271 | what is reported for each condition of an instance, in its fields |
| NodeReports.ContainsExactly | pkg/controller/orchestrator/orchestrator_reconcile.go:684-690 | the substring test is true exactly when the name is something, that text and something |
| NodeReports.KeptByName | pkg/controller/orchestrator/orchestrator_reconcile.go:480-507 | a node is kept exactly when no ordinal is read from its name, or the ordinal is desired and the cluster is not of version 300 with the name of the old headless service |
| WriteGate.GateCallsExactly | pkg/controller/orchestrator/orchestrator_reconcile.go:509-579 | exactly which hosts a pass makes writable or read-only: none during a failover, otherwise the settled instances in the wrong state, and writable only the given master of a cluster that is not read-only |
| WriteGate.UntouchedHost | pkg/controller/orchestrator/orchestrator_reconcile.go:528-579 | the flag of a host that is not listed is as before |
| WriteGate.GateReachesTheWantedState | pkg/controller/orchestrator/orchestrator_reconcile.go:528-579 | when all calls succeed, every settled instance ends up writable if and only if it is that master, and every other as it was (in fields: FlagsAfterGate) |
| WriteGate.MadeWritableExactly | pkg/controller/orchestrator/orchestrator_reconcile.go:509-579 | SetWritable is sent for a key if and only if there is no failover, the cluster is not read-only, the key has the host of the given master, and an instance with the key is up to date, up for 15 seconds and read-only |
| WriteGate.MadeReadOnlyExactly | pkg/controller/orchestrator/orchestrator_reconcile.go:509-579 | SetReadOnly likewise, for a host that is not the given master or a read-only cluster, and an instance that is writable |
| WriteGate.FlagsAfterGate | pkg/controller/orchestrator/orchestrator_reconcile.go:528-579 | when all calls succeed, the final flag of every listed instance, in fields and numbers |
| OrcReconcile.Orchestrator.Send | pkg/controller/orchestrator/orchestrator_reconcile.go:510-525 | a call is recorded, and takes effect when it succeeds |
| OrcReconcile.OrcUpdater.GetFromOrchestrator | pkg/controller/orchestrator/orchestrator_reconcile.go:127-168 | the instances and the master a pass works with, or failure when Orchestrator cannot be reached |
| OrcReconcile.OrcUpdater.UpdateNodesInOrc | pkg/controller/orchestrator/orchestrator_reconcile.go:312-358 | the three lists of a pass, and what they become for a deleted cluster |
| OrcReconcile.OrcUpdater.DiscoverNodesInOrc | pkg/controller/orchestrator/orchestrator_reconcile.go:379-388 | one discover call per key, in order, whatever fails |
| OrcReconcile.OrcUpdater.ForgetNodesFromOrc | pkg/controller/orchestrator/orchestrator_reconcile.go:360-377 | forget calls for all keys when the cluster is deleted or has been Ready for more than 30 seconds, else none; a failing call stops none of them |
| OrcReconcile.OrcUpdater.GetRecoveriesToAck | pkg/controller/orchestrator/orchestrator_reconcile.go:390-422 | the recoveries that are not acknowledged and old enough, when the gate is open, else none |
| OrcReconcile.OrcUpdater.AcknowledgeRecoveries | pkg/controller/orchestrator/orchestrator_reconcile.go:424-439 | acknowledges in order up to the first failing call: all of them unless a call fails, and then the last one sent is the one that failed |
| OrcReconcile.OrcUpdater.RemoveNodeConditionNotInOrc | pkg/controller/orchestrator/orchestrator_reconcile.go:466-495 | marks unreported nodes and compacts the list in place: equal to the order-preserving filter |
| OrcReconcile.OrcUpdater.CompactNodes | pkg/controller/orchestrator/orchestrator_reconcile.go:478-495 | the in-place compaction by index equals the filter |
| OrcReconcile.OrcUpdater.UpdateNodesStatus | pkg/controller/orchestrator/orchestrator_reconcile.go:210-272 | applies exactly the writes of the report, in order |
| OrcReconcile.OrcUpdater.UpdateNodeStatus | pkg/controller/orchestrator/orchestrator_reconcile.go:210-272 | the writes for one instance, by staleness, lag, threads and master |
| OrcReconcile.OrcUpdater.MarkReadOnlyNodesInOrc | pkg/controller/orchestrator/orchestrator_reconcile.go:528-579 | sends exactly the calls of the gate, and with no failure leaves the flags they lead to |
| OrcReconcile.OrcUpdater.PodsAreReady | pkg/controller/orchestrator/orchestrator_reconcile.go:178-200 | the loop over the pods decides readiness, and extends the node list only by the pods it looked at |
| OrcReconcile.OrcUpdater.UpdateClusterReadyStatus | pkg/controller/orchestrator/orchestrator_reconcile.go:170-202 | Ready is written True exactly when all pods are ready, each is master or replicating, and some pod is master unless the cluster is read-only |
| OrcReconcile.OrcUpdater.UpdateClusterReadOnlyStatus | pkg/controller/orchestrator/orchestrator_reconcile.go:274-300 | ReadOnly is written True exactly when all reported instances are read-only |
| OrcReconcile.OrcUpdater.UpdateClusterFailoverInProgressStatus | pkg/controller/orchestrator/orchestrator_reconcile.go:302-308 | FailoverInProgress is cleared when the master was seen within five seconds, else untouched |
| OrcReconcile.OrcUpdater.UpdateFailoverAckStatus | pkg/controller/orchestrator/orchestrator_reconcile.go:441-457 | FailoverAck is True exactly when some recovery is not acknowledged |
| OrcReconcile.OrcUpdater.Sync | pkg/controller/orchestrator/orchestrator_reconcile.go:75-125 | one whole pass: node list, cluster conditions and every call sent, in order; without a failing call every selected recovery is acknowledged and the flags are those of the gate, and the acknowledging stops only at its own first failure; an unreachable Orchestrator changes nothing |
| PassGuarantees.MastersAfterSync | pkg/controller/orchestrator/orchestrator_reconcile.go:209-272 | after a pass a node marked master is the master of the pass, or a registered pod that was marked before and was skipped |
| PassGuarantees.WhatSyncMaySend | pkg/controller/orchestrator/orchestrator_reconcile.go:360-388 | what may be made writable, and that what is forgotten is registered and no desired pod |
| OrcReconcile.ReadyAfterPass | pkg/controller/orchestrator/orchestrator_reconcile.go:170-202 | the Ready condition after a pass is that of its own write to Ready; types stay distinct |
| PassGuarantees.AcknowledgedOnlyAfterGrace | pkg/controller/orchestrator/orchestrator_reconcile.go:390-422 | a recovery is acknowledged if and only if it is at least 600 seconds old and Ready has been unbroken for more than 600 seconds |
| PassGuarantees.StoredStatus.UpdateAfterPass | pkg/controller/orchestrator/orchestrator_controller.go:217-225 | a changed status is stored unless the cluster is being deleted or the update fails, and only a failed update is an error |
| PassGuarantees.ReadyOfRun | pkg/controller/orchestrator/orchestrator_controller.go:178-228 | over any run of passes the stored Ready condition depends only on what the passes found whose status was stored |
| PassGuarantees.GateOpensExactly | pkg/controller/orchestrator/orchestrator_controller.go:178-228 | over any run of passes the stored conditions open the time gate if and only if some stored pass longer ago than the grace time found the cluster ready, and so did every stored pass since |
| PassGuarantees.GateOfAPass | pkg/controller/orchestrator/orchestrator_reconcile.go:360-422 | the gate that a pass decides on is open if and only if that holds of the stored passes before it and of itself |
| PassGuarantees.ForgetsOnlyAfterGrace | pkg/controller/orchestrator/orchestrator_reconcile.go:360-377 | while a live cluster may forget hosts, every pass of the last 30 seconds that counts found it ready; so every pass did, if and only if none that did not failed to be stored |
| PassGuarantees.UnstoredPassIsOverlooked | pkg/controller/orchestrator/orchestrator_reconcile.go:360-377 | a run in which the gate is open one second after a pass that found the cluster not ready, because its status update failed |
| PassGuarantees.AcknowledgesExactly | pkg/controller/orchestrator/orchestrator_reconcile.go:390-422 | over any run of passes the last one acknowledges exactly the recoveries that are old enough, and only after more than 600 seconds of Ready in all passes that count |
| PassGuarantees.DiscoverSent | pkg/controller/orchestrator/orchestrator_reconcile.go:340-388 | discovered is a key exactly when it is that of an ordinal below replicas and ready nodes, on port 3306, and no instance has its host |
| PassGuarantees.ForgottenExactly | pkg/controller/orchestrator/orchestrator_reconcile.go:312-377 | over any run of passes, a key is forgotten exactly when it is registered and the cluster is deleted, or is that of no desired pod after more than 30 seconds of Ready in all passes that count |
| PassGuarantees.AcknowledgedExactly | pkg/controller/orchestrator/orchestrator_reconcile.go:390-439 | a recovery is acknowledged if and only if it is in the audit, not acknowledged and at least 600 seconds old, after more than 600 seconds of Ready in all passes that count |
| PassGuarantees.SentExactly | pkg/controller/orchestrator/orchestrator_reconcile.go:75-125 | a pass without a failing call sends exactly the discover, forget, write-gate and acknowledge calls it is meant to send, each in the fields and numbers of what it read |
| PassGuarantees.ChosenExactly | pkg/controller/orchestrator/orchestrator_reconcile.go:148-168 | there is no master exactly when the named and the determined one clash or there is neither, and else it is the named one if any |
| PassGuarantees.ReadyExactly | pkg/controller/orchestrator/orchestrator_reconcile.go:170-202 | the cluster is ready exactly when as many nodes are ready as wanted, each pod's node is master or replicating, and one is master, unless the cluster is read-only or wants no pods |
| PassGuarantees.ConditionsExactly | pkg/controller/orchestrator/orchestrator_reconcile.go:75-125 | the status of each cluster condition after a pass, from the instances, the master, the recoveries and the status before |
| PodRoles.RoleSyncer.GetPodSyncers | pkg/controller/mysqlcluster/mysqlcluster_controller.go:437-455 | the two loops yield the replicas in order, then the masters in order |
| PodRoles.RoleSyncer.SyncPod | pkg/controller/mysqlcluster/internal/syncer/pod.go:73-121 | fails exactly when the pod exists and its node has no master condition or the pod cannot be written, and then changes nothing; else sets both labels of an existing pod and skips a missing one |
| PodRoles.RoleSyncer.SyncPods | pkg/controller/mysqlcluster/mysqlcluster_controller.go:349-358 | pods are synced in order up to the first that cannot be, and all of them when there is none |
| PodRoles.ReplicaSyncsOnlyRemove | pkg/controller/mysqlcluster/internal/syncer/pod.go:73-121 | syncing replicas removes the master label from exactly the pods reached and adds none |
| PodRoles.MasterSyncsOnlyAdd | pkg/controller/mysqlcluster/internal/syncer/pod.go:73-121 | syncing masters adds it to exactly the existing pods reached and removes none |
| PodRoles.LabelsAfterAllSyncs | pkg/controller/mysqlcluster/mysqlcluster_controller.go:432-455 | after all syncs exactly the pods of nodes marked master are labelled, and those labelled before that belong to no listed node |
| PodRoles.AtMostOneAfterAllSyncs | pkg/controller/mysqlcluster/mysqlcluster_controller.go:432-455 | with at most one node marked, all syncs leave at most one label if and only if no labelled pod belongs to no node, or just one does and the marked node has no pod |
| PodRoles.SyncsKeepBelonging | pkg/controller/mysqlcluster/mysqlcluster_controller.go:432-455 | all syncs together neither make nor remove labels of pods that belong to no node |
| PodRoles.AtMostOneMasterLabel | pkg/controller/mysqlcluster/mysqlcluster_controller.go:349-358 | after every prefix of the syncs at most one pod is labelled master, if that held before, at most one node is marked, and labelled pods belong to nodes |
| PodRoles.PassLeavesOneMaster | pkg/controller/orchestrator/orchestrator_reconcile.go:209-272 | the list after a pass without skipped instances meets that requirement |
| PodRoles.LabelsBelongAfterPass | pkg/controller/orchestrator/orchestrator_reconcile.go:209-272 | after a pass every labelled pod belongs to a node if and only if it has a host that the compaction keeps, the report wrote to or the Ready check looked at |
| PodRoles.LeftBehindKeepsItsLabel | pkg/controller/orchestrator/orchestrator_reconcile.go:480-507 | in a list of own pods, a pod that is no longer desired is dropped by a pass, and no sync takes its label away |
| PodRoles.PassThenLabels | pkg/controller/mysqlcluster/mysqlcluster_controller.go:349-358 | such a pass followed by any number of pod syncs leaves at most one master label |
| PodRoles.SyncedExactly | pkg/controller/mysqlcluster/internal/syncer/pod.go:73-121 | a sync labels the existing pod by master, replication and lag of its node, and leaves its other labels and all other pods alone |
| PodRoles.LabelledAfterAllSyncs | pkg/controller/mysqlcluster/mysqlcluster_controller.go:432-455 | after all syncs the existing pod of each listed node has the role and the health that its node says, when no two nodes share a pod |
| NodeInit.InitFileQuery | pkg/sidecar/appconf.go:244-340 | the statements in the order the program appends them |
| NodeInit.InitFileIsGood | pkg/sidecar/appconf.go:244-340 | the table is dropped only before it is created, every write comes after, the backup's GTID is written when there is one, the marker is last; when the file drops the table and when it resets replication |
| NodeInit.FreshHolds | pkg/sidecar/appconf.go:244-340 | the invariant holds at the first start of a node |
| NodeInit.InitStepHolds | pkg/sidecar/appconf.go:244-340 | every statement of the init-file keeps it |
| NodeInit.RecStepHolds | pkg/controller/node/node_controller.go:224-312 | every statement of the node controller keeps it |
| NodeInit.RestartHolds | pkg/sidecar/appconf.go:244-340 | a restart keeps it: of the pod always, of the container when the file neither drops the table nor resets replication |
| NodeInit.RunHolds | pkg/controller/node/node_controller.go:224-312 | so does every interleaving of statements, restarts and reconciles that stop anywhere, without a harmful replay |
| NodeInit.FreshRunIsSafe | pkg/controller/node/node_controller.go:224-312 | on every such run from a first start, at every moment: configured implies the completion marker, a settled GTID, and the master read in that reconcile being the node itself or its replication source |
| NodeInit.SafeExactlyWithoutHarm | pkg/controller/node/node_controller.go:224-312 | from every state with the invariant, every interleaving of statements, reconciles and restarts of container and pod is safe if and only if the present init-file neither drops the table nor resets replication |
| NodeInit.SomeFreshRunIsUnsafe | pkg/controller/node/node_controller.go:224-312 | from every first start of a node some run is unsafe |
| NodeInit.BreakingBreaks | pkg/controller/node/node_controller.go:224-312 | the run that breaks the promise for any such file: a container restart replays it under a reconcile that is about to mark the node |
| NodeInit.StepsAreSent | pkg/controller/node/node_controller.go:267-312 | a run of controller steps alone does what sending its statements does |
| NodeInit.NodeSql.SetPurgedGTID | pkg/controller/node/sql.go:230-273 | the statements sent, up to the first failure, are those of the step machine; where none fails, the backup's GTID is purged and recorded, unless there is none or one was recorded before |
| NodeInit.NodeSql.ChangeMasterTo | pkg/controller/node/sql.go:139-156 | likewise for pointing replication at the master, which a failing simple start does not stop |
| NodeInit.NodeSql.InitializeMySQL | pkg/controller/node/node_controller.go:267-312 | the initialiser, stopped anywhere, leaves a state of the step machine; it fails only when a statement does, and where it succeeds the database is exactly the configured one: skipped under the annotation, else with the backup's GTID purged, and replicating from the master unless the node is it |
| NodeOutcomes.InitFileRan | pkg/sidecar/appconf.go:244-340 | the database that the init-file leaves when it runs through, from the one before, the configuration and the backup's GTID |
| NodeOutcomes.TextsOfInitFile | pkg/sidecar/appconf.go:244-340 | the other statements of the init-file, in order: every account statement, and every extra statement that is not blank |
| NodeOutcomes.ConfiguredAsRead | pkg/controller/node/node_controller.go:267-312 | on every run from a first start without a harmful replay: a configured node was configured by a reconcile of the run that read its master and the annotation; it is that master or replicates from it; under the annotation it is marked as skipped; with a backup's GTID it has that purged and recorded unless it is marked as skipped, which is so only if some reconcile read the annotation |
| Escaping.Escape | pkg/internal/mysql/escape.go:20-50 | the buffer of twice the input's length is never outgrown; the result is the escaped string, between n and 2n long |
| Escaping.EscapedExactly | pkg/internal/mysql/escape.go:20-50 | a strict reader accepts exactly the escaped strings and reads each back, so escaping is injective |
| Escaping.EscapesExactly | pkg/internal/mysql/escape.go:20-50 | what each special character becomes, and that no other changes |
| SqlBuilder.NewQuery | pkg/internal/mysql/query.go:41-54 | panics exactly on an empty text; else the text is kept, ends with a semicolon, and gains at most that one character |
| SqlBuilder.ConcatenateQueries | pkg/internal/mysql/query.go:57-73 | texts on lines of their own, arguments in order; panics when there is no text |
| SqlBuilder.BuildAtomicQuery | pkg/internal/mysql/query.go:76-81 | realises BEGIN, the given statements and COMMIT, line by line |
| SqlBuilder.GetUsersIdentification | pkg/internal/mysql/user.go:88-105 | text and arguments realise the accounts |
| SqlBuilder.GetCreateUserQuery | pkg/internal/mysql/user.go:82-86 | realises the CREATE USER statement |
| SqlBuilder.GetAlterUserQuery | pkg/internal/mysql/user.go:60-80 | realises the ALTER USER statement with its limits, in whatever order they come |
| SqlBuilder.PermissionsToQuery | pkg/internal/mysql/user.go:118-144 | realises one GRANT per table; panics exactly when there is no table |
| SqlBuilder.CreateUserIfNotExists | pkg/internal/mysql/user.go:32-58 | an error exactly without hosts, a panic exactly for permissions that all lack tables, else a query that realises the whole transaction |
| SqlBuilder.BoundExactly | pkg/internal/mysql/query.go:41-81 | a driver that binds placeholders by position recovers the intended values if and only if no literal character is a question mark |
| SqlBuilder.IntendedArgs | pkg/internal/mysql/user.go:32-144 | for h hosts, r limits and g tables there are 6h + r + 2hg arguments, whatever the names |
| SqlBuilder.UserQueryIsBoundExactly | pkg/internal/mysql/user.go:32-144 | the whole query is bound as intended, and has as many placeholders as arguments, if and only if no schema, table, permission or limit name that is written holds a question mark |
| SqlTexts.QuotedExactly | pkg/internal/mysql/user.go:146-155 | an identifier is put in backquotes without those in it; a star stays |
| SqlTexts.GrantTextExactly | pkg/internal/mysql/user.go:118-144 | what is granted, on which table of which schema, in this order |
| SqlTexts.AccountsExactly | pkg/internal/mysql/user.go:88-105 | text and arguments of the accounts, host by host: user, host and, where there is one, password, with commas between |
| SqlTexts.CreateExactly | pkg/internal/mysql/user.go:82-86 | text and arguments of the statement that creates the user |
| SqlTexts.LimitsExactly | pkg/internal/mysql/user.go:60-80 | text and arguments of the resource limits, one by one |
| SqlTexts.AlterExactly | pkg/internal/mysql/user.go:60-80 | text and arguments of the statement that alters the user |
| SqlTexts.GrantExactly | pkg/internal/mysql/user.go:118-144 | text and arguments of a grant: the accounts without their passwords |
| SqlTexts.TableLinesExactly | pkg/internal/mysql/user.go:118-144 | one grant per table, in order |
| SqlTexts.TransactionExactly | pkg/internal/mysql/user.go:32-58 | the text of the whole transaction, line by line, and its arguments, statement by statement |
| Sizes.ReadBack | pkg/internal/mysqlcluster/defaults.go:148-173 | a size is read back never above the input and below it by at most a thousandth |
| Sizes.ReadBackExactly | pkg/internal/mysqlcluster/defaults.go:148-173 | it is read back unchanged exactly when the unit chosen divides it |
| Sizes.BinlogsFit | pkg/internal/mysqlcluster/defaults.go:101-119 | three log files fit in the limit and the limit in half the storage, before rounding and, up to the rounding loss, after it |
| Sizes.UnitUsed | pkg/internal/mysqlcluster/defaults.go:165-173 | a unit is used exactly when the size reaches it and at most a thousandth would be lost, and then the digits are the rounded quotient |
| Sizes.HumanizedExactly | pkg/internal/mysqlcluster/defaults.go:148-173 | the text of every size: the largest unit of G, M and K that may be used, else the number |
| Sizes.BinlogSizesExactly | pkg/internal/mysqlcluster/defaults.go:101-119 | limit and file size for every storage: a third and a ninth below 2G, else a half and an eighth, at most 1G |
| Sizes.BinlogOptions | pkg/internal/mysqlcluster/defaults.go:101-119 | which binary log options the defaults set, and to what |
| Sizes.DefaultsOnlyFill | pkg/internal/mysqlcluster/defaults.go:135-139 | what the user set is kept, what is added is a default for a missing option, and every default's option is present |
| Sizes.FirstDefaultsStay | pkg/internal/mysqlcluster/defaults.go:135-139 | defaults that are computed again later change nothing |
| Sizes.MysqlConf.SetConfigIfNotSet | pkg/internal/mysqlcluster/defaults.go:135-139 | adds the option if and only if it is missing |
| Sizes.MysqlConf.SetBinlogDefaults | pkg/internal/mysqlcluster/defaults.go:101-119 | the binary log settings for the requested storage, none without |

## Left out

- Kubernetes client calls, caches, object merging, conflicts, events and owner references: a reconcile reads fresh objects, and each write to the API either happens as a whole or fails.
- The Orchestrator HTTP client, the MySQL server, xtrabackup and rclone: only their results and the effects named in the model.
- Condition reasons and messages: only types, statuses and transition times are kept.
- Sub-second time: times are whole seconds, a pass reads the clock once, and stored times are not truncated further.
- Version and image strings: the desired version, and the version of a StatefulSet template, are given already parsed.
- Most of the StatefulSet template: only its server version and the names of its init containers.
- SQL texts of accounts and extra statements in the init-file: statements without effect on the status table, replication source and purged GTIDs.
- Read-only and super-read-only flags of a node during its initialisation.
- The change of replication source by Orchestrator after a node is configured: that a node replicates from its master is stated for the actions of init-file and node controller.
- Replacing the data or the GTID file of a node between two starts.
- The legacy 0.3 upgrader and old headless services, except the name test used by the compaction.
- Writes of the cluster status by the cluster controller between two Orchestrator passes: they do not touch the Ready condition.
- Buffer pool and log file sizing: floating point and tables of constants.
- Negative sizes: sizes and storage requests are taken to be non-negative.
- Unicode: strings are sequences of characters that each stand for a byte.
- Backups, cron jobs, PVC cleanup and resize, user and database controllers.
- UpgradeSafety.ChownBeforeRecording84: allows ready servers that reported 0.0.0, because the code does; it says exactly when every ready server reported the recorded version.
