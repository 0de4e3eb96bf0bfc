/** Reading the cluster during a rollout: counting the pods whose init containers have succeeded and
    asking every ready server for its version. */
module RolloutObservation {
  import opened Common
  import opened Versions
  import opened UpgradeDecisions

  /** The state of one init container: the exit code once it has terminated. */
  datatype InitStatus = InitStatus(name: string, exitCode: Option<int>)

  datatype PodCondition = PodCondition(kind: string, status: ConditionStatus)

  /** A pod as the controller lists it. `answer` is what SELECT VERSION() on it will parse to; None
      when the query or the parse fails. */
  datatype Pod = Pod(containers: seq<string>, conditions: seq<PodCondition>,
                     initContainers: seq<string>, initStatuses: seq<InitStatus>, answer: Option<Version>)

  /* ---- init containers ---- */

  /** The first status reported under `name` is a clean exit. */
  ghost predicate ExitedZero(statuses: seq<InitStatus>, name: string) {
    exists i :: 0 <= i < |statuses| && statuses[i].name == name && statuses[i].exitCode == Some(0)
                && forall j :: 0 <= j < i ==> statuses[j].name != name
  }

  method InitContainerSucceeded(pod: Pod, name: string) returns (ok: bool)
    ensures ok <==> ExitedZero(pod.initStatuses, name)
  {
    for i := 0 to |pod.initStatuses|
      invariant forall j :: 0 <= j < i ==> pod.initStatuses[j].name != name
    {
      var s := pod.initStatuses[i];
      if s.name != name { continue; }
      if s.exitCode.Some? { return s.exitCode.value == 0; }
      return false;
    }
    return false;
  }

  method AllInitContainersSucceeded(pod: Pod, inits: seq<string>) returns (ok: bool)
    ensures ok <==> forall name :: name in inits ==> ExitedZero(pod.initStatuses, name)
  {
    for i := 0 to |inits|
      invariant forall name :: name in inits[..i] ==> ExitedZero(pod.initStatuses, name)
    {
      var done := InitContainerSucceeded(pod, inits[i]);
      if !done {
        assert inits[i] in inits;
        return false;
      }
      assert inits[..i + 1] == inits[..i] + [inits[i]];
    }
    assert inits[..|inits|] == inits;
    return true;
  }

  method PodHasTemplateInitContainers(pod: Pod, inits: seq<string>) returns (ok: bool)
    ensures ok <==> forall name :: name in inits ==> name in pod.initContainers
  {
    for i := 0 to |inits|
      invariant forall name :: name in inits[..i] ==> name in pod.initContainers
    {
      var found := false;
      for k := 0 to |pod.initContainers|
        invariant !found && inits[i] !in pod.initContainers[..k]
      {
        if pod.initContainers[k] == inits[i] {
          found := true;
          break;
        }
      }
      if !found {
        assert pod.initContainers[..|pod.initContainers|] == pod.initContainers;
        assert inits[i] in inits;
        return false;
      }
      assert inits[..i + 1] == inits[..i] + [inits[i]];
    }
    assert inits[..|inits|] == inits;
    return true;
  }

  /** The pod carries every init container of the template and each of them has exited cleanly. */
  ghost predicate Initialised(pod: Pod, inits: seq<string>) {
    && (forall name :: name in inits ==> name in pod.initContainers)
    && (forall name :: name in inits ==> ExitedZero(pod.initStatuses, name))
  }

  /** The positions in the pod list of the initialised pods. */
  ghost function InitialisedPods(pods: seq<Pod>, inits: seq<string>): set<nat> {
    set i: nat | i < |pods| && Initialised(pods[i], inits)
  }

  lemma InitialisedPodsSnoc(pods: seq<Pod>, inits: seq<string>, i: nat)
    requires i < |pods|
    ensures InitialisedPods(pods[..i + 1], inits)
            == InitialisedPods(pods[..i], inits) + if Initialised(pods[i], inits) then {i} else {}
  {
  }

  method PodTemplateInitContainersSucceeded(inits: seq<string>, pods: seq<Pod>, replicas: int) returns (ok: bool)
    ensures ok <==> |InitialisedPods(pods, inits)| >= replicas
  {
    if |inits| == 0 {
      AllPodsCount(pods, inits);
      return |pods| >= replicas;
    }
    var ready := 0;
    for i := 0 to |pods|
      invariant ready == |InitialisedPods(pods[..i], inits)|
    {
      InitialisedPodsSnoc(pods, inits, i);
      assert i !in InitialisedPods(pods[..i], inits);
      var has := PodHasTemplateInitContainers(pods[i], inits);
      if !has { continue; }
      var succeeded := AllInitContainersSucceeded(pods[i], inits);
      if !succeeded { continue; }
      ready := ready + 1;
    }
    assert pods[..|pods|] == pods;
    return ready >= replicas;
  }

  lemma {:induction false} AllPodsCount(pods: seq<Pod>, inits: seq<string>)
    requires inits == []
    ensures |InitialisedPods(pods, inits)| == |pods|
  {
    if pods != [] {
      var last := |pods| - 1;
      AllPodsCount(pods[..last], inits);
      InitialisedPodsSnoc(pods, inits, last);
      assert pods[..last + 1] == pods;
    }
  }

  /** The rollout of the desired version is complete. */
  ghost predicate RolloutDone(c: Cluster, sts: Option<StatefulSet>, pods: seq<Pod>) {
    && sts.Some? && c.spec.replicas.Some? && c.spec.replicas.value != 0
    && sts.value.version == c.spec.desired
    && sts.value.readyReplicas >= c.spec.replicas.value
    && |InitialisedPods(pods, sts.value.inits)| >= c.spec.replicas.value
  }

  predicate RolloutCompleteOnVersion(c: Cluster, sts: Option<StatefulSet>, version: Version) {
    if sts.None? || c.spec.replicas.None? then false
    else if c.spec.replicas.value == 0 then false
    else if SemVerFromStatefulSet(sts) != version then false
    else sts.value.readyReplicas >= c.spec.replicas.value
  }

  method RolloutComplete(c: Cluster, sts: Option<StatefulSet>, pods: seq<Pod>) returns (ok: bool)
    ensures ok <==> RolloutDone(c, sts, pods)
  {
    if sts.None? || c.spec.replicas.None? { return false; }
    var replicas := c.spec.replicas.value;
    if replicas == 0 { return false; }
    if !RolloutCompleteOnVersion(c, sts, c.spec.desired) { return false; }
    ok := PodTemplateInitContainersSucceeded(sts.value.inits, pods, replicas);
  }

  /** A complete rollout means that at least spec.replicas pods carried every init container of the
      template, and each of these exited 0 on each of those pods. */
  lemma RolloutDoneRanEveryStep(c: Cluster, sts: Option<StatefulSet>, pods: seq<Pod>, name: string)
    requires RolloutDone(c, sts, pods) && name in sts.value.inits
    ensures |set i: nat | i < |pods| && name in pods[i].initContainers && ExitedZero(pods[i].initStatuses, name)|
            >= c.spec.replicas.value
  {
    var ran := set i: nat | i < |pods| && name in pods[i].initContainers && ExitedZero(pods[i].initStatuses, name);
    assert InitialisedPods(pods, sts.value.inits) <= ran;
    SubsetCard(InitialisedPods(pods, sts.value.inits), ran);
  }

  lemma {:induction false} SubsetCard<T>(a: set<T>, b: set<T>)
    requires a <= b
    ensures |a| <= |b|
    decreases a
  {
    if a != {} {
      var x :| x in a;
      SubsetCard(a - {x}, b - {x});
    }
  }

  /* ---- the version the servers report ---- */

  const MYSQL_CONTAINER := "mysql"
  const READY_CONDITION := "Ready"

  predicate MysqlReady(pod: Pod) {
    MYSQL_CONTAINER in pod.containers && PodCondition(READY_CONDITION, True) in pod.conditions
  }

  method PodMysqlReady(pod: Pod) returns (ready: bool)
    ensures ready <==> MysqlReady(pod)
  {
    var hasMysql := false;
    for i := 0 to |pod.containers|
      invariant !hasMysql && MYSQL_CONTAINER !in pod.containers[..i]
    {
      if pod.containers[i] == MYSQL_CONTAINER {
        hasMysql := true;
        break;
      }
    }
    assert pod.containers[..|pod.containers|] == pod.containers;
    if !hasMysql { return false; }
    for i := 0 to |pod.conditions|
      invariant PodCondition(READY_CONDITION, True) !in pod.conditions[..i]
    {
      if pod.conditions[i].kind == READY_CONDITION && pod.conditions[i].status == True { return true; }
    }
    assert pod.conditions[..|pod.conditions|] == pod.conditions;
    return false;
  }

  function ReadyPods(pods: seq<Pod>): seq<Pod> { Filter(MysqlReady, pods) }

  method ReadyMysqlPods(pods: seq<Pod>) returns (out: seq<Pod>)
    ensures out == ReadyPods(pods)
  {
    out := [];
    for i := 0 to |pods|
      invariant out == ReadyPods(pods[..i])
    {
      assert pods[..i + 1] == pods[..i] + [pods[i]];
      FilterSnoc(MysqlReady, pods[..i], pods[i]);
      var ready := PodMysqlReady(pods[i]);
      if !ready { continue; }
      out := out + [pods[i]];
    }
    assert pods[..|pods|] == pods;
  }

  /** The operator credentials: present, present but empty, or not loadable at all. */
  datatype Credentials = Usable | Empty | NotLoadable

  datatype Observation = Agreed(version: Version) | Waiting | CredentialError

  /** Every answer parsed; the answers before position k are 0.0.0 and those from k on are `v`. */
  ghost predicate SettlesOn(answers: seq<Option<Version>>, v: Version, k: nat) {
    && k < |answers| && (v.IsZero() ==> k == 0)
    && (forall i :: 0 <= i < |answers| ==> answers[i] == Some(if i < k then ZERO else v))
  }

  ghost predicate Settled(answers: seq<Option<Version>>, v: Version) {
    exists k: nat :: SettlesOn(answers, v, k)
  }

  lemma SettledUnique(answers: seq<Option<Version>>, v: Version, w: Version)
    requires Settled(answers, v) && Settled(answers, w)
    ensures v == w
  {
    assert answers[|answers| - 1] == Some(v) && answers[|answers| - 1] == Some(w);
  }

  function Answers(ready: seq<Pod>): (r: seq<Option<Version>>)
    ensures |r| == |ready|
  {
    seq(|ready|, i requires 0 <= i < |ready| => ready[i].answer)
  }

  /** The outcome of asking the ready pods, in terms of their answers alone. */
  ghost function Observe(credentials: Credentials, pods: seq<Pod>): Observation {
    var answers := Answers(ReadyPods(pods));
    if answers == [] then Waiting
    else
      match credentials
      case NotLoadable => CredentialError
      case Empty => Waiting
      case Usable =>
        if exists v :: Settled(answers, v) then
          var v :| Settled(answers, v);
          Agreed(v)
        else Waiting
  }

  lemma ObserveAgrees(credentials: Credentials, pods: seq<Pod>, v: Version)
    ensures Observe(credentials, pods) == Agreed(v) <==>
            credentials == Usable && Settled(Answers(ReadyPods(pods)), v)
  {
    var answers := Answers(ReadyPods(pods));
    if Settled(answers, v) {
      forall w | Settled(answers, w) ensures w == v { SettledUnique(answers, v, w); }
    }
  }

  method ObserveDataPlaneVersionSQL(credentials: Credentials, pods: seq<Pod>) returns (o: Observation)
    ensures o == Observe(credentials, pods)
  {
    var ready := ReadyMysqlPods(pods);
    if |ready| == 0 { return Waiting; }
    if credentials == NotLoadable { return CredentialError; }
    if credentials == Empty { return Waiting; }
    ghost var answers := Answers(ready);
    var observed := ZERO;
    ghost var k: nat := 0;
    for i := 0 to |ready|
      invariant k <= i && (observed.IsZero() ==> k == i) && (!observed.IsZero() ==> k < i)
      invariant forall j :: 0 <= j < i ==> answers[j] == Some(if j < k then ZERO else observed)
    {
      var raw := ready[i].answer;
      assert answers[i] == raw;
      if raw.None? {
        NeverSettles(answers, i, i);
        return Waiting;
      }
      var v := raw.value;
      if observed.IsZero() {
        observed := v;
        if v.IsZero() { k := i + 1; }
        continue;
      }
      if observed != v {
        NeverSettles(answers, k, i);
        return Waiting;
      }
    }
    if observed.IsZero() { k := 0; }
    assert SettlesOn(answers, observed, k);
    ObserveAgrees(credentials, pods, observed);
    return Agreed(observed);
  }

  /** A missing answer, or a change after the first answer that is not 0.0.0, rules out agreement. */
  lemma NeverSettles(answers: seq<Option<Version>>, i: nat, j: nat)
    requires i <= j < |answers|
    requires answers[j] == None || (answers[i].Some? && answers[i] != Some(ZERO) && answers[i] != answers[j])
    ensures forall v :: !Settled(answers, v)
  {
  }

  lemma SettledMeansAll(answers: seq<Option<Version>>, v: Version)
    requires forall i :: 0 <= i < |answers| ==> answers[i] != Some(ZERO)
    ensures Settled(answers, v) <==>
            answers != [] && v != ZERO && forall i :: 0 <= i < |answers| ==> answers[i] == Some(v)
  {
    if answers != [] && v != ZERO && forall i :: 0 <= i < |answers| ==> answers[i] == Some(v) {
      assert SettlesOn(answers, v, 0);
    }
    if Settled(answers, v) {
      var k: nat :| SettlesOn(answers, v, k);
      assert answers[0] != Some(ZERO);
      assert k == 0;
    }
  }

  lemma AllAnswer(ready: seq<Pod>, answer: Option<Version>)
    ensures (forall p :: p in ready ==> p.answer == answer)
            <==> forall i :: 0 <= i < |ready| ==> Answers(ready)[i] == answer
  {
    if forall i :: 0 <= i < |ready| ==> Answers(ready)[i] == answer {
      forall p | p in ready ensures p.answer == answer {
        var i :| 0 <= i < |ready| && ready[i] == p;
        assert Answers(ready)[i] == answer;
      }
    }
  }

  /** When no server reports 0.0.0, a version is recorded exactly when there is a ready server and
      every ready server reports that version. */
  lemma AgreementIsUnanimous(pods: seq<Pod>, v: Version)
    requires forall p :: p in ReadyPods(pods) ==> p.answer != Some(ZERO)
    ensures Observe(Usable, pods) == Agreed(v) <==>
            ReadyPods(pods) != [] && v != ZERO && forall p :: p in ReadyPods(pods) ==> p.answer == Some(v)
  {
    var ready := ReadyPods(pods);
    forall i | 0 <= i < |ready| ensures Answers(ready)[i] != Some(ZERO) { assert ready[i] in ready; }
    ObserveAgrees(Usable, pods, v);
    SettledMeansAll(Answers(ready), v);
    AllAnswer(ready, Some(v));
  }

  lemma BothReady(a: Pod, b: Pod)
    requires MysqlReady(a) && MysqlReady(b)
    ensures ReadyPods([a, b]) == [a, b]
  {
    FilterSnoc(MysqlReady, [], a);
    FilterSnoc(MysqlReady, [a], b);
    assert [] + [a] == [a] && [a] + [b] == [a, b];
  }

  /** The unset version doubles as "nothing seen yet", so a first server that reports 0.0.0 is
      overruled by a later one. */
  lemma ZeroAnswerIsOverruled(a: Pod, b: Pod)
    requires MysqlReady(a) && MysqlReady(b)
    requires a.answer == Some(ZERO) && b.answer == Some(Version(8, 4, 8))
    ensures Observe(Usable, [a, b]) == Agreed(Version(8, 4, 8))
    ensures Observe(Usable, [b, a]) == Waiting
  {
    BothReady(a, b);
    BothReady(b, a);
    assert SettlesOn(Answers([a, b]), Version(8, 4, 8), 1);
    ObserveAgrees(Usable, [a, b], Version(8, 4, 8));
    NeverSettles(Answers([b, a]), 0, 1);
  }

  /** In every case, a recorded version is the one the last ready server reported, and every other
      ready server reported it or 0.0.0. */
  lemma AgreementUpToZero(credentials: Credentials, pods: seq<Pod>, v: Version)
    requires Observe(credentials, pods) == Agreed(v)
    ensures ReadyPods(pods) != []
    ensures forall p :: p in ReadyPods(pods) ==> p.answer == Some(v) || p.answer == Some(ZERO)
  {
    ObserveAgrees(credentials, pods, v);
    var ready := ReadyPods(pods);
    assert forall i :: 0 <= i < |ready| ==> Answers(ready)[i] == ready[i].answer;
  }

  /** So an agreed version was reported by every ready server exactly when the first one in the list reported it. */
  lemma UnanimousExactly(credentials: Credentials, pods: seq<Pod>, v: Version)
    requires Observe(credentials, pods) == Agreed(v)
    ensures ReadyPods(pods) != []
    ensures (forall p :: p in ReadyPods(pods) ==> p.answer == Some(v)) <==> ReadyPods(pods)[0].answer == Some(v)
  {
    var ready := ReadyPods(pods);
    var answers := Answers(ready);
    AgreementUpToZero(credentials, pods, v);
    ObserveAgrees(credentials, pods, v);
    AllAnswer(ready, Some(v));
    var k: nat :| SettlesOn(answers, v, k);
    assert answers[0] == ready[0].answer && ready[0] in ready;
    if answers[0] == Some(v) { FirstSettles(answers, v, k); }
  }

  lemma FirstSettles(answers: seq<Option<Version>>, v: Version, k: nat)
    requires SettlesOn(answers, v, k) && answers[0] == Some(v)
    ensures forall i :: 0 <= i < |answers| ==> answers[i] == Some(v)
  {
    assert answers[0] == Some(if 0 < k then ZERO else v);
  }
}
