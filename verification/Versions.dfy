/** Server versions, the profile registry and the upgrade-path check. */
module Versions {
  import opened Common

  /** A server version, compared numerically as in section 11 of Semantic Versioning 2.0.0. */
  datatype Version = Version(major: nat, minor: nat, patch: nat) {
    predicate IsZero() { this == ZERO }

    predicate Less(other: Version) {
      || major < other.major
      || (major == other.major && minor < other.minor)
      || (major == other.major && minor == other.minor && patch < other.patch)
    }
  }

  /** The unset version. */
  const ZERO := Version(0, 0, 0)

  datatype Profile = Percona57 | Percona80 | Percona84 | FallbackUnknown

  predicate AtLeastMySQL8(v: Version) { v.major >= 8 }

  predicate AtLeastMySQL84(v: Version) { v.major > 8 || (v.major == 8 && v.minor >= 4) }

  predicate Matches(p: Profile, v: Version) {
    match p
    case Percona57 => v.major == 5
    case Percona80 => AtLeastMySQL8(v) && !AtLeastMySQL84(v)
    case Percona84 => AtLeastMySQL84(v)
    case FallbackUnknown => true
  }

  /** The first profile of the registry, from position `i` on, that matches. */
  function ResolveFrom(profiles: seq<Profile>, v: Version, i: nat): (r: Option<Profile>)
    requires i <= |profiles|
    ensures r == None <==> forall k :: i <= k < |profiles| ==> !Matches(profiles[k], v)
    ensures r.Some? ==> exists k :: i <= k < |profiles| && profiles[k] == r.value && Matches(profiles[k], v)
                                    && forall j :: i <= j < k ==> !Matches(profiles[j], v)
    decreases |profiles| - i
  {
    if i == |profiles| then None
    else if Matches(profiles[i], v) then Some(profiles[i])
    else ResolveFrom(profiles, v, i + 1)
  }

  function Resolve(profiles: seq<Profile>, v: Version): Option<Profile> { ResolveFrom(profiles, v, 0) }

  /** The built-in registry, in match order. */
  const BUILTIN_PROFILES := [Percona84, Percona80, Percona57, FallbackUnknown]

  function ProfileFor(v: Version): Profile {
    var r := Resolve(BUILTIN_PROFILES, v);
    if r.Some? then r.value else FallbackUnknown
  }

  predicate ProfilesMatch(a: Version, b: Version) { ProfileFor(a) == ProfileFor(b) }

  /** The supported server upgrade order, one LTS line at a time. */
  const UPGRADE_ORDER := [Percona57, Percona80, Percona84, FallbackUnknown]

  function IndexFrom(order: seq<Profile>, p: Profile, i: nat): (r: Option<nat>)
    requires i <= |order|
    ensures r.None? <==> p !in order[i..]
    ensures r.Some? ==> i <= r.value < |order| && order[r.value] == p && p !in order[i..r.value]
    decreases |order| - i
  {
    if i == |order| then None
    else if order[i] == p then Some(i)
    else IndexFrom(order, p, i + 1)
  }

  function ProfileUpgradeIndex(p: Profile): Option<nat> { IndexFrom(UPGRADE_ORDER, p, 0) }

  datatype PathVerdict = Accepted | Downgrade | UnknownProfile | SkipsLine

  function ValidateUpgradePath(current: Version, target: Version): PathVerdict {
    if target.Less(current) then Downgrade
    else if target == current then Accepted
    else
      var from := ProfileUpgradeIndex(ProfileFor(current));
      var to := ProfileUpgradeIndex(ProfileFor(target));
      if from.None? || to.None? then UnknownProfile
      else if to.value > from.value + 1 then SkipsLine
      else Accepted
  }

  predicate Accepts(current: Version, target: Version) {
    ValidateUpgradePath(current, target) == Accepted
  }

  /** The LTS line read off the version numbers alone: 0 is 5.x, 1 is 8.0 up to 8.3, 2 is 8.4 and
      later, 3 is everything the operator has no profile for. */
  function Line(v: Version): nat {
    if v.major == 5 then 0
    else if v.major == 8 && v.minor < 4 then 1
    else if v.major >= 8 then 2
    else 3
  }

  predicate Supported(v: Version) { v.major == 5 || v.major >= 8 }

  /** The registry and the upgrade order together compute the line. */
  lemma ProfileIndexIsLine(v: Version)
    ensures ProfileFor(v) == UPGRADE_ORDER[Line(v)]
    ensures ProfileUpgradeIndex(ProfileFor(v)) == Some(Line(v))
  {
    assert Matches(BUILTIN_PROFILES[3], v);
    assert UPGRADE_ORDER[Line(v)] in UPGRADE_ORDER[0..];
  }

  /** The three Percona profiles exclude one another, so a registry may list them in any order, as
      long as the fallback comes last. */
  lemma RegistryOrderIsImmaterial(specific: seq<Profile>, v: Version)
    requires FallbackUnknown !in specific
    requires Percona57 in specific && Percona80 in specific && Percona84 in specific
    ensures Resolve(specific + [FallbackUnknown], v) == Some(ProfileFor(v))
  {
    var ps := specific + [FallbackUnknown];
    ProfileIndexIsLine(v);
    assert ps[|specific|] == FallbackUnknown;
    if Supported(v) {
      var i :| 0 <= i < |specific| && specific[i] == ProfileFor(v);
      assert ps[i] == specific[i];
    }
  }

  /** What the path check accepts, in terms of version numbers only. */
  lemma AcceptedExactly(current: Version, target: Version)
    ensures Accepts(current, target) <==>
            target == current
            || (current.Less(target) && (!Supported(current) || Line(target) <= Line(current) + 1))
    ensures Supported(current) && Accepts(current, target) ==> Supported(target)
    ensures ValidateUpgradePath(current, target) != UnknownProfile
  {
    ProfileIndexIsLine(current);
    ProfileIndexIsLine(target);
  }

  /** One accepted upgrade of a supported version: never down, and at most one line up. */
  lemma AcceptedStep(current: Version, target: Version)
    requires Supported(current) && Accepts(current, target)
    ensures Supported(target) && !target.Less(current)
    ensures Line(current) <= Line(target) <= Line(current) + 1
  {
    AcceptedExactly(current, target);
  }

  /** Why the sources without a profile are set apart: from 7.0.0 the check lets the server jump
      over the 8.0 line. */
  lemma UnknownSourceMaySkipALine()
    ensures Accepts(Version(7, 0, 0), Version(8, 4, 0))
  {
    AcceptedExactly(Version(7, 0, 0), Version(8, 4, 0));
  }

  lemma LessIsTransitive(a: Version, b: Version, c: Version)
    requires !b.Less(a) && !c.Less(b)
    ensures !c.Less(a)
  {
  }

  predicate AcceptedAt(chain: seq<Version>, i: nat)
    requires i + 1 < |chain|
  {
    Accepts(chain[i], chain[i + 1])
  }

  predicate AcceptedChain(chain: seq<Version>) {
    forall i :: 0 <= i < |chain| - 1 ==> AcceptedAt(chain, i)
  }

  /** Any chain of accepted upgrades from a supported version stays on supported versions and never
      falls back to an older version or line. */
  lemma {:induction false} ChainNeverLosesALine(chain: seq<Version>, i: nat, j: nat)
    requires AcceptedChain(chain) && i <= j < |chain| && Supported(chain[i])
    ensures Supported(chain[j]) && !chain[j].Less(chain[i]) && Line(chain[i]) <= Line(chain[j])
    decreases j
  {
    hide Line, Supported, Accepts;
    if i < j {
      ChainNeverLosesALine(chain, i, j - 1);
      assert AcceptedAt(chain, j - 1);
      AcceptedStep(chain[j - 1], chain[j]);
      LessIsTransitive(chain[i], chain[j - 1], chain[j]);
    }
  }

  /** A chain of accepted upgrades from 5.x to 8.4 or later runs an 8.0 server on the way. */
  lemma {:induction false} ChainPassesThrough80(chain: seq<Version>, j: nat)
    requires AcceptedChain(chain) && j < |chain|
    requires Line(chain[0]) == 0 && Line(chain[j]) == 2
    ensures exists k :: 0 < k < j && Line(chain[k]) == 1
    decreases j
  {
    ChainNeverLosesALine(chain, 0, j - 1);
    assert AcceptedAt(chain, j - 1);
    AcceptedStep(chain[j - 1], chain[j]);
    if Line(chain[j - 1]) == 2 {
      ChainPassesThrough80(chain, j - 1);
    }
  }

  /* ---- the same in numbers ---- */

  /** Versions are ordered by major, then minor, then patch number, and any two are comparable in one way. */
  lemma OrderExactly(a: Version, b: Version)
    ensures a.Less(b) || a == b || b.Less(a)
    ensures !(a.Less(b) && b.Less(a)) && !a.Less(a)
    ensures a.major < b.major ==> a.Less(b)
    ensures a.major == b.major && a.minor < b.minor ==> a.Less(b)
    ensures a.major == b.major && a.minor == b.minor ==> (a.Less(b) <==> a.patch < b.patch)
  {
  }

  lemma SameProfileIsSameLine(a: Version, b: Version)
    ensures ProfilesMatch(a, b) <==> Line(a) == Line(b)
  {
    ProfileIndexIsLine(a);
    ProfileIndexIsLine(b);
  }

  /** A server may be moved to a version when it is its own, or newer and at most one line up; there is no limit on
      lines for a version of no line. */
  predicate MayMove(current: Version, target: Version) {
    || target == current
    || (current.Less(target) && (!Supported(current) || Line(target) <= Line(current) + 1))
  }

  /** Every verdict of the path check: an older version is a downgrade, what else may not be moved to skips a line. */
  lemma VerdictExactly(current: Version, target: Version)
    ensures ValidateUpgradePath(current, target)
            == if MayMove(current, target) then Accepted
               else if target.Less(current) then Downgrade else SkipsLine
  {
    hide Line;
    AcceptedExactly(current, target);
  }
}
