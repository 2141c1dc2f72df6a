/**
 * modtools/mod.py: the version-selection state machine of a mod and the
 * `Mod` object's life cycle (selection, install, locating the file, the
 * manifest entry).
 *
 * Two selection functions are given. `SelectVersionsAsWritten` is the code
 * of `_get_versions` as it stands; `SelectVersions` is the same state
 * machine with three defects repaired (see the Findings of the README), and
 * is the one the `Mod` class uses.
 */
module ModtoolsMod {
  import opened Wrappers
  import opened Records
  import opened Seqs
  import Limiter
  import ModtoolsModtool

  /** `VersionStatus` (modtools/mod.py:8-16). */
  datatype VersionStatus =
    | LatestRelease
    | LatestNonreleaseWRelease
    | LatestNonreleaseOnly
    | LegacyRelease
    | LegacyNonreleaseWRelease
    | LegacyNonreleaseOnly
    | Unavailable
    | Manual

  /** The integer each status stands for in the source. */
  function Code(s: VersionStatus): (c: int)
    ensures 10 <= c <= 40
    ensures c / 10 == 1 <==> s.LatestRelease? || s.LatestNonreleaseWRelease? || s.LatestNonreleaseOnly?
    ensures c / 10 == 2 <==> Legacy(s)
  {
    match s
    case LatestRelease => 10
    case LatestNonreleaseWRelease => 11
    case LatestNonreleaseOnly => 12
    case LegacyRelease => 20
    case LegacyNonreleaseWRelease => 21
    case LegacyNonreleaseOnly => 22
    case Unavailable => 30
    case Manual => 40
  }

  /** The two statuses that leave the choice between a release and a newer non-release to the user. */
  predicate Ambiguous(s: VersionStatus)
  {
    s == LatestNonreleaseWRelease || s == LegacyNonreleaseWRelease
  }

  /** The three statuses whose version does not list the target game version. */
  predicate Legacy(s: VersionStatus)
  {
    s == LegacyRelease || s == LegacyNonreleaseWRelease || s == LegacyNonreleaseOnly
  }

  /** What `self.version` / `self.version_alt` hold: `None`, the tuple `(None,)`, or a version. */
  datatype VersionSlot = NoVersion | NoneTuple | Chosen(v: Version)

  /** Python truthiness of a slot: the tuple `(None,)` is truthy. */
  predicate Truthy(slot: VersionSlot)
  {
    !slot.NoVersion?
  }

  /** The three attributes `_get_versions` sets. */
  datatype Selection = Selection(status: VersionStatus, version: VersionSlot, alt: VersionSlot)

  /** `"fabric" in v['loaders'] and game_version in v['game_versions']` (modtools/mod.py:67). */
  predicate Compatible(v: Version, gameVersion: string)
  {
    SupportsFabric(v) && gameVersion in v.gameVersions
  }

  predicate IsNonrelease(v: Version)
  {
    !IsRelease(v)
  }

  predicate IsFabricRelease(v: Version)
  {
    SupportsFabric(v) && IsRelease(v)
  }

  predicate IsFabricNonrelease(v: Version)
  {
    SupportsFabric(v) && !IsRelease(v)
  }

  /** `target_versions` (modtools/mod.py:66-69). */
  function CompatibleVersions(all: seq<Version>, gameVersion: string): seq<Version>
  {
    Filter(all, v => Compatible(v, gameVersion))
  }

  /** The compatible set is exactly the versions for fabric that list the target game version. */
  lemma CompatibleMembership(all: seq<Version>, gameVersion: string, v: Version)
    ensures v in CompatibleVersions(all, gameVersion) <==>
            v in all && SupportsFabric(v) && gameVersion in v.gameVersions
  {
    var c := CompatibleVersions(all, gameVersion);
    if v in c {
      var i :| 0 <= i < |c| && c[i] == v;
    }
    if v in all && Compatible(v, gameVersion) {
      var i :| 0 <= i < |all| && all[i] == v;
    }
  }

  /** Whether the source would go down the "latest" side (some version is compatible). */
  predicate HasCompatible(all: seq<Version>, gameVersion: string)
  {
    exists i :: 0 <= i < |all| && Compatible(all[i], gameVersion)
  }

  lemma CompatibleNonEmpty(all: seq<Version>, gameVersion: string)
    ensures CompatibleVersions(all, gameVersion) != [] <==> HasCompatible(all, gameVersion)
  {
    var c := CompatibleVersions(all, gameVersion);
    if HasCompatible(all, gameVersion) {
      var i :| 0 <= i < |all| && Compatible(all[i], gameVersion);
      assert all[i] in c;
    }
    if c != [] {
      assert c[0] in all;
      var i :| 0 <= i < |all| && all[i] == c[0];
    }
  }

  /**
   * `_get_versions` as written (modtools/mod.py:61-162). `all` is the version
   * list in the order the registry client returns it; `next(...)` takes the
   * first match in that order.
   */
  function SelectVersionsAsWritten(all: seq<Version>, gameVersion: string): (r: Result<Selection, Exception>)
    // the internal-error `raise` of line 87 is unreachable
    ensures r != Err(RaisedException)
    // the only failure is the unbound local `status` of line 160
    ensures r.Err? ==> r.error == UnboundLocalError
    // ... so LATEST_NONRELEASE_W_RELEASE is never returned
    ensures r.Ok? ==> r.value.status != LatestNonreleaseWRelease && r.value.status != Manual
    // the alternate is set only for LEGACY_NONRELEASE_W_RELEASE
    ensures r.Ok? ==> (r.value.alt.Chosen? <==> r.value.status == LegacyNonreleaseWRelease)
    ensures r.Ok? ==> (r.value.version == NoneTuple <==> r.value.status == Unavailable)
  {
    var compatible := CompatibleVersions(all, gameVersion);
    if compatible != [] then
      var release := First(compatible, IsRelease);
      var nonrelease := First(all, IsNonrelease);
      assert compatible[0] in all;
      if nonrelease.None? && release.None? then
        Err(RaisedException)
      else if nonrelease.None? then
        Ok(Selection(LatestRelease, Chosen(release.value), NoVersion))
      else if release.None? then
        Ok(Selection(LatestNonreleaseOnly, Chosen(nonrelease.value), NoVersion))
      else if release.value.published > nonrelease.value.published then
        Ok(Selection(LatestRelease, Chosen(release.value), NoVersion))
      else
        // lines 109-111 assign the attributes, line 160 then reads the unbound local `status`
        Err(UnboundLocalError)
    else
      var release := First(all, IsFabricRelease);
      var nonrelease := First(all, IsFabricNonrelease);
      if release.None? && nonrelease.None? then
        Ok(Selection(Unavailable, NoneTuple, NoVersion))  // `version = None,` builds a tuple
      else if release.None? then
        Ok(Selection(LegacyNonreleaseOnly, Chosen(nonrelease.value), NoVersion))
      else if nonrelease.None? then
        Ok(Selection(LegacyRelease, Chosen(release.value), NoVersion))
      else if release.value.published > nonrelease.value.published then
        Ok(Selection(LegacyRelease, Chosen(release.value), NoVersion))
      else
        Ok(Selection(LegacyNonreleaseWRelease, Chosen(release.value), Chosen(nonrelease.value)))
  }

  /**
   * The "latest" half of the repaired `_get_versions`: the first release and
   * the first non-release among the compatible versions, the newer of the
   * two winning and a tie or a newer non-release leaving the choice open.
   */
  function LatestOf(compatible: seq<Version>): (r: Selection)
    requires compatible != []
    ensures r.status.LatestRelease? || r.status.LatestNonreleaseWRelease? || r.status.LatestNonreleaseOnly?
    ensures r.version.Chosen? && r.version.v in compatible
    ensures r.status == LatestRelease ==> IsRelease(r.version.v)
    ensures r.status == LatestNonreleaseOnly ==> !IsRelease(r.version.v)
    ensures r.alt.Chosen? <==> r.status == LatestNonreleaseWRelease
    ensures r.alt.Chosen? ==>
      && r.alt.v in compatible && IsRelease(r.version.v) && !IsRelease(r.alt.v)
      && r.version.v.published <= r.alt.v.published
  {
    var release := First(compatible, IsRelease);
    var nonrelease := First(compatible, IsNonrelease);
    if release.None? then
      assert IsNonrelease(compatible[0]);
      Selection(LatestNonreleaseOnly, Chosen(nonrelease.value), NoVersion)
    else if nonrelease.None? || release.value.published > nonrelease.value.published then
      Selection(LatestRelease, Chosen(release.value), NoVersion)
    else
      Selection(LatestNonreleaseWRelease, Chosen(release.value), Chosen(nonrelease.value))
  }

  /**
   * The "legacy" half of `_get_versions` (modtools/mod.py:112-159): the first
   * fabric release and the first fabric non-release of the whole list, the
   * newer of the two winning, a tie or a newer non-release leaving the choice
   * open, and neither meaning UNAVAILABLE (here repaired to store no version).
   */
  function LegacyOf(all: seq<Version>): (r: Selection)
    ensures Legacy(r.status) || r.status == Unavailable
    ensures r.status == Unavailable <==> forall i :: 0 <= i < |all| ==> !SupportsFabric(all[i])
    ensures r.version.Chosen? <==> r.status != Unavailable
    ensures r.version != NoneTuple && r.alt != NoneTuple
    ensures r.version.Chosen? ==> r.version.v in all && SupportsFabric(r.version.v)
    ensures r.status == LegacyRelease ==> IsRelease(r.version.v)
    ensures r.status == LegacyNonreleaseOnly ==> !IsRelease(r.version.v)
    ensures r.alt.Chosen? <==> r.status == LegacyNonreleaseWRelease
    ensures r.alt.Chosen? ==>
      && IsRelease(r.version.v) && !IsRelease(r.alt.v) && r.alt.v in all && SupportsFabric(r.alt.v)
      && r.version.v.published <= r.alt.v.published
  {
    var release := First(all, IsFabricRelease);
    var nonrelease := First(all, IsFabricNonrelease);
    if release.None? && nonrelease.None? then
      assert forall i :: 0 <= i < |all| ==> !IsFabricRelease(all[i]) && !IsFabricNonrelease(all[i]);
      Selection(Unavailable, NoVersion, NoVersion)
    else if release.None? then
      Selection(LegacyNonreleaseOnly, Chosen(nonrelease.value), NoVersion)
    else if nonrelease.None? then
      Selection(LegacyRelease, Chosen(release.value), NoVersion)
    else if release.value.published > nonrelease.value.published then
      Selection(LegacyRelease, Chosen(release.value), NoVersion)
    else
      Selection(LegacyNonreleaseWRelease, Chosen(release.value), Chosen(nonrelease.value))
  }

  /**
   * `_get_versions` with its defects repaired: the ambiguous-latest branch
   * yields LATEST_NONRELEASE_W_RELEASE, UNAVAILABLE stores no version, and the
   * latest non-release is looked for among the compatible versions, as the
   * release is (the status names promise an alpha/beta "for the target game
   * version"), instead of among all versions. Total: every version list gets
   * exactly one status.
   */
  function SelectVersions(all: seq<Version>, gameVersion: string): (r: Selection)
    ensures r.status != Manual
    // the "latest" statuses are taken exactly when a compatible version exists
    ensures (r.status.LatestRelease? || r.status.LatestNonreleaseWRelease? || r.status.LatestNonreleaseOnly?)
            <==> HasCompatible(all, gameVersion)
    // UNAVAILABLE exactly when no version is for fabric, and then nothing is chosen
    ensures r.status == Unavailable <==> forall i :: 0 <= i < |all| ==> !SupportsFabric(all[i])
    ensures r.version.Chosen? <==> r.status != Unavailable
    ensures r.version != NoneTuple && r.alt != NoneTuple
    // the chosen version is one of the registry's fabric versions
    ensures r.version.Chosen? ==> r.version.v in all && SupportsFabric(r.version.v)
    // a release status chooses a release, a non-release-only status a non-release
    ensures r.status == LatestRelease || r.status == LegacyRelease ==> IsRelease(r.version.v)
    ensures r.status == LatestNonreleaseOnly || r.status == LegacyNonreleaseOnly ==> !IsRelease(r.version.v)
    // a "latest" status chooses only versions that are compatible
    ensures r.status == LatestRelease || r.status == LatestNonreleaseWRelease || r.status == LatestNonreleaseOnly
            ==> Compatible(r.version.v, gameVersion)
    ensures r.status == LatestNonreleaseWRelease ==> r.alt.Chosen? && Compatible(r.alt.v, gameVersion)
    // an alternate exists exactly for the two ambiguous statuses: an older-or-equal release and a newer non-release
    ensures r.alt.Chosen? <==> Ambiguous(r.status)
    ensures Ambiguous(r.status) ==>
      && IsRelease(r.version.v) && !IsRelease(r.alt.v) && r.alt.v in all && SupportsFabric(r.alt.v)
      && r.version.v.published <= r.alt.v.published
    // which of the two rule sets decides (LatestOfRules, LegacyOfRules)
    ensures HasCompatible(all, gameVersion) ==> r == LatestOf(CompatibleVersions(all, gameVersion))
    ensures !HasCompatible(all, gameVersion) ==> r == LegacyOf(all)
  {
    CompatibleNonEmpty(all, gameVersion);
    var compatible := CompatibleVersions(all, gameVersion);
    if compatible != [] then
      var r := LatestOf(compatible);
      assert r.version.v in all && Compatible(r.version.v, gameVersion) by {
        CompatibleMembership(all, gameVersion, r.version.v);
      }
      assert r.alt.Chosen? ==> r.alt.v in all && Compatible(r.alt.v, gameVersion) by {
        if r.alt.Chosen? {
          CompatibleMembership(all, gameVersion, r.alt.v);
        }
      }
      r
    else
      LegacyOf(all)
  }

  /** The first `rel` version of `xs` exists and is strictly newer than the first `non` version, if there is one. */
  ghost predicate ReleaseNewer(xs: seq<Version>, rel: Version -> bool, non: Version -> bool)
  {
    exists i :: IsFirstMatch(xs, rel, i) && forall j :: IsFirstMatch(xs, non, j) ==> xs[j].published < xs[i].published
  }

  /** Both first versions exist and the `non` one is at least as new as the `rel` one. */
  ghost predicate NonreleaseNotOlder(xs: seq<Version>, rel: Version -> bool, non: Version -> bool)
  {
    exists i, j :: IsFirstMatch(xs, rel, i) && IsFirstMatch(xs, non, j) && xs[i].published <= xs[j].published
  }

  /** `slot` holds the first version of `xs` that satisfies `p`. */
  ghost predicate ChosenFirst(xs: seq<Version>, p: Version -> bool, slot: VersionSlot)
  {
    exists i :: IsFirstMatch(xs, p, i) && slot == Chosen(xs[i])
  }

  /** The comparison of the two `next(...)` results, read as statements about first matches. */
  lemma FirstPairRules(xs: seq<Version>, rel: Version -> bool, non: Version -> bool)
    ensures var release, nonrelease := First(xs, rel), First(xs, non);
      && (release.Some? && (nonrelease.None? || release.value.published > nonrelease.value.published)
          <==> ReleaseNewer(xs, rel, non))
      && (release.Some? && nonrelease.Some? && release.value.published <= nonrelease.value.published
          <==> NonreleaseNotOlder(xs, rel, non))
      && (release.Some? ==> ChosenFirst(xs, rel, Chosen(release.value)))
      && (nonrelease.Some? ==> ChosenFirst(xs, non, Chosen(nonrelease.value)))
  {
    forall i | IsFirstMatch(xs, rel, i) ensures First(xs, rel) == Some(xs[i]) {
      FirstMatchIsFirst(xs, rel, i);
    }
    forall j | IsFirstMatch(xs, non, j) ensures First(xs, non) == Some(xs[j]) {
      FirstMatchIsFirst(xs, non, j);
    }
  }

  /**
   * The rules of the "latest" statuses, on the compatible versions `c`: only
   * non-releases give LATEST_NONRELEASE_ONLY with the first of them; a first
   * release strictly newer than the first non-release, or no non-release,
   * gives LATEST_RELEASE with that release; otherwise
   * LATEST_NONRELEASE_W_RELEASE, the first release as version and the first
   * non-release as alternate.
   */
  lemma LatestOfRules(c: seq<Version>)
    requires c != []
    ensures var r := LatestOf(c);
      && (r.status == LatestNonreleaseOnly <==> forall i :: 0 <= i < |c| ==> !IsRelease(c[i]))
      && (r.status == LatestRelease <==> ReleaseNewer(c, IsRelease, IsNonrelease))
      && (r.status == LatestNonreleaseWRelease <==> NonreleaseNotOlder(c, IsRelease, IsNonrelease))
      && (r.status == LatestNonreleaseOnly ==> ChosenFirst(c, IsNonrelease, r.version))
      && (r.status != LatestNonreleaseOnly ==> ChosenFirst(c, IsRelease, r.version))
      && (r.alt.Chosen? ==> ChosenFirst(c, IsNonrelease, r.alt))
  {
    FirstPairRules(c, IsRelease, IsNonrelease);
  }

  /**
   * The rules of the "legacy" statuses, on the whole list: the same decision
   * between the first fabric release and the first fabric non-release.
   */
  lemma LegacyOfRules(all: seq<Version>)
    ensures var r := LegacyOf(all);
      && (r.status == LegacyNonreleaseOnly <==>
            (forall i :: 0 <= i < |all| ==> !IsFabricRelease(all[i]))
            && exists i :: 0 <= i < |all| && IsFabricNonrelease(all[i]))
      && (r.status == LegacyRelease <==> ReleaseNewer(all, IsFabricRelease, IsFabricNonrelease))
      && (r.status == LegacyNonreleaseWRelease <==> NonreleaseNotOlder(all, IsFabricRelease, IsFabricNonrelease))
      && (r.status == LegacyNonreleaseOnly ==> ChosenFirst(all, IsFabricNonrelease, r.version))
      && (r.status == LegacyRelease || r.status == LegacyNonreleaseWRelease ==> ChosenFirst(all, IsFabricRelease, r.version))
      && (r.alt.Chosen? ==> ChosenFirst(all, IsFabricNonrelease, r.alt))
  {
    FirstPairRules(all, IsFabricRelease, IsFabricNonrelease);
  }

  /**
   * Ties between the two candidates go to the non-release: with a compatible
   * release no newer than the latest compatible non-release, the choice is
   * left to the user.
   */
  lemma TiesFavourNonrelease(all: seq<Version>, gameVersion: string)
    requires First(CompatibleVersions(all, gameVersion), IsRelease).Some?
    requires First(CompatibleVersions(all, gameVersion), IsNonrelease).Some?
    requires First(CompatibleVersions(all, gameVersion), IsRelease).value.published
             <= First(CompatibleVersions(all, gameVersion), IsNonrelease).value.published
    ensures SelectVersions(all, gameVersion) ==
            Selection(LatestNonreleaseWRelease,
                      Chosen(First(CompatibleVersions(all, gameVersion), IsRelease).value),
                      Chosen(First(CompatibleVersions(all, gameVersion), IsNonrelease).value))
  {
  }

  /** As written, the same tie (with the unfiltered non-release) reaches the unbound `status`. */
  lemma AsWrittenTiesRaise(all: seq<Version>, gameVersion: string)
    requires First(CompatibleVersions(all, gameVersion), IsRelease).Some?
    requires First(all, IsNonrelease).Some?
    requires First(CompatibleVersions(all, gameVersion), IsRelease).value.published
             <= First(all, IsNonrelease).value.published
    ensures SelectVersionsAsWritten(all, gameVersion) == Err(UnboundLocalError)
  {
  }

  // Sample records for the scenario lemmas below.
  function Release(t: int, gameVersions: seq<string>): Version
  {
    Version("r" , "release build", "release", t, ["fabric"], gameVersions, [], [])
  }

  function Beta(t: int, loaders: seq<string>, gameVersions: seq<string>): Version
  {
    Version("b", "beta build", "beta", t, loaders, gameVersions, [], [])
  }

  /**
   * A release and a newer beta, both for fabric and the target game version:
   * the code as written fails on the unbound `status` (modtools/mod.py:106-111, 160).
   */
  lemma AsWrittenAmbiguousLatestRaises()
    ensures SelectVersionsAsWritten([Release(1, ["1.21.1"]), Beta(2, ["fabric"], ["1.21.1"])], "1.21.1")
            == Err(UnboundLocalError)
  {
    var all := [Release(1, ["1.21.1"]), Beta(2, ["fabric"], ["1.21.1"])];
    assert CompatibleVersions(all, "1.21.1") == all;
    assert First(all, IsRelease) == Some(all[0]);
    assert First(all, IsNonrelease) == Some(all[1]);
  }

  /** The same versions, repaired: the release is chosen and the newer beta offered as the alternate. */
  lemma AmbiguousLatestSelected()
    ensures SelectVersions([Release(1, ["1.21.1"]), Beta(2, ["fabric"], ["1.21.1"])], "1.21.1")
            == Selection(LatestNonreleaseWRelease, Chosen(Release(1, ["1.21.1"])), Chosen(Beta(2, ["fabric"], ["1.21.1"])))
  {
    var all := [Release(1, ["1.21.1"]), Beta(2, ["fabric"], ["1.21.1"])];
    assert CompatibleVersions(all, "1.21.1") == all;
    assert First(all, IsRelease) == Some(all[0]);
    assert First(all, IsNonrelease) == Some(all[1]);
  }

  /** With no fabric version at all, the code as written stores the truthy tuple `(None,)` (modtools/mod.py:133). */
  lemma AsWrittenUnavailableStoresTuple(all: seq<Version>, gameVersion: string)
    requires forall i :: 0 <= i < |all| ==> !SupportsFabric(all[i])
    ensures SelectVersionsAsWritten(all, gameVersion) == Ok(Selection(Unavailable, NoneTuple, NoVersion))
    ensures Truthy(NoneTuple)
  {
    CompatibleNonEmpty(all, gameVersion);
  }

  /** Repaired, UNAVAILABLE stores no version at all. */
  lemma UnavailableStoresNothing(all: seq<Version>, gameVersion: string)
    requires forall i :: 0 <= i < |all| ==> !SupportsFabric(all[i])
    ensures SelectVersions(all, gameVersion) == Selection(Unavailable, NoVersion, NoVersion)
    ensures !Truthy(SelectVersions(all, gameVersion).version)
  {
  }

  /**
   * The code as written takes the latest non-release from the whole list: a
   * fabric beta for another game version beats a fabric beta for the target
   * one, and is reported as LATEST_NONRELEASE_ONLY.
   */
  lemma AsWrittenNonreleaseIgnoresGameVersion()
    ensures SelectVersionsAsWritten([Beta(5, ["fabric"], ["1.20.1"]), Beta(3, ["fabric"], ["1.21.1"])], "1.21.1")
            == Ok(Selection(LatestNonreleaseOnly, Chosen(Beta(5, ["fabric"], ["1.20.1"])), NoVersion))
  {
    var all := [Beta(5, ["fabric"], ["1.20.1"]), Beta(3, ["fabric"], ["1.21.1"])];
    assert !Compatible(all[0], "1.21.1");
    assert CompatibleVersions(all, "1.21.1") == [all[1]];
    assert First([all[1]], IsRelease) == None;
    assert First(all, IsNonrelease) == Some(all[0]);
  }

  /** Repaired, only compatible versions are candidates, so the beta for the target game version is chosen. */
  lemma NonreleaseCandidateIsCompatible()
    ensures SelectVersions([Beta(5, ["fabric"], ["1.20.1"]), Beta(3, ["fabric"], ["1.21.1"])], "1.21.1")
            == Selection(LatestNonreleaseOnly, Chosen(Beta(3, ["fabric"], ["1.21.1"])), NoVersion)
  {
    var all := [Beta(5, ["fabric"], ["1.20.1"]), Beta(3, ["fabric"], ["1.21.1"])];
    assert !Compatible(all[0], "1.21.1");
    assert CompatibleVersions(all, "1.21.1") == [all[1]];
    assert First([all[1]], IsRelease) == None;
    assert First([all[1]], IsNonrelease) == Some(all[1]);
  }

  /** No version lists the target game version, but a fabric release exists: LEGACY_RELEASE. */
  lemma LegacyReleaseScenario()
    ensures SelectVersions([Release(1, ["1.20.1"])], "1.21.1") == Selection(LegacyRelease, Chosen(Release(1, ["1.20.1"])), NoVersion)
    ensures SelectVersionsAsWritten([Release(1, ["1.20.1"])], "1.21.1") == Ok(Selection(LegacyRelease, Chosen(Release(1, ["1.20.1"])), NoVersion))
  {
    var all := [Release(1, ["1.20.1"])];
    assert CompatibleVersions(all, "1.21.1") == [];
    assert First(all, IsFabricRelease) == Some(all[0]);
    assert First(all, IsFabricNonrelease) == None;
  }

  /** `self.dependencies`: never assigned, `None` after a failed fetch, or the fetched ids. */
  datatype Dependencies = Unassigned | NoneDependencies | Fetched(ids: seq<Option<string>>)

  /**
   * `_fetch_dependencies` (modtools/mod.py:164-170) for the slot it looks at;
   * `responses(id)` is the registry's answer for version `id`. A slot without
   * a version makes `version['id']` raise TypeError, which is caught: `None`.
   */
  function FetchDependencies(slot: VersionSlot, responses: string -> Version): (d: Dependencies)
    ensures d != Unassigned
    ensures d.Fetched? <==> slot.Chosen?
    ensures d.Fetched? ==> d.ids == ModtoolsModtool.RequiredIds(responses(slot.v.id).dependencies)
  {
    match slot
    case Chosen(v) => Fetched(ModtoolsModtool.RequiredIds(responses(v.id).dependencies))
    case _ => NoneDependencies
  }

  /** `if not version_id`: a missing or empty version id means automatic selection. */
  predicate ManualRequested(versionId: Option<string>)
  {
    versionId.Some? && versionId.value != ""
  }

  /** A file path: the directory it is in and its final component (`Path.name`). */
  datatype FilePath = FilePath(dir: string, name: string)

  /** The dictionary `create_dict` returns. */
  datatype ManifestEntry = ManifestEntry(
    name: string,
    projectId: string,
    version: string,
    versionId: string,
    file: string,
    dependencies: seq<Option<string>>)

  const NotInstalled: string := "NOT_INSTALLED"

  /** `Mod` (modtools/mod.py:18-209). */
  class Mod {
    const slug: string
    const projectId: string
    const gameVersion: string
    var versionStatus: VersionStatus
    var version: VersionSlot
    var versionAlt: VersionSlot
    var usingAltVer: bool
    var selected: bool
    var dependencies: Dependencies
    var installed: bool
    var path: Option<FilePath>

    /** An installed mod knows its path. */
    ghost predicate Valid()
      reads this
    {
      installed ==> path.Some?
    }

    /** The version the mod stands for: the alternate once it is in use. */
    function ChosenVersion(): VersionSlot
      reads this
    {
      if usingAltVer then versionAlt else version
    }

    /**
     * `__init__` (modtools/mod.py:19-41). `slug` and `projectId` are what the
     * registry resolved for the query, `allVersions` the version list,
     * `responses(id)` the registry's answer for version `id`.
     */
    constructor (slug: string, projectId: string, gameVersion: string, versionId: Option<string>,
                 allVersions: seq<Version>, responses: string -> Version)
      ensures Valid()
      ensures this.slug == slug && this.projectId == projectId && this.gameVersion == gameVersion
      ensures !ManualRequested(versionId) ==>
        Selection(versionStatus, version, versionAlt) == SelectVersions(allVersions, gameVersion)
      ensures ManualRequested(versionId) ==>
        versionStatus == Manual && version == Chosen(responses(versionId.value)) && versionAlt == NoVersion
      ensures !usingAltVer && !installed && path == None
      ensures selected <==> !Ambiguous(versionStatus)
      ensures dependencies == if selected then FetchDependencies(version, responses) else Unassigned
    {
      this.slug := slug;
      this.projectId := projectId;
      this.gameVersion := gameVersion;
      var status, chosen, alt;
      if !ManualRequested(versionId) {
        var selection := SelectVersions(allVersions, gameVersion);
        status, chosen, alt := selection.status, selection.version, selection.alt;
      } else {
        status, chosen, alt := Manual, Chosen(responses(versionId.value)), NoVersion;
      }
      versionStatus, version, versionAlt := status, chosen, alt;
      usingAltVer := false;
      selected := !Ambiguous(status);
      dependencies := if !Ambiguous(status) then FetchDependencies(chosen, responses) else Unassigned;
      installed := false;
      path := None;
    }

    /**
     * The flag flip the `use_alt` setter (modtools/mod.py:47-55) is meant to
     * perform: only a mod with an ambiguous status switches to its alternate.
     * The dependencies it then fetches are discarded by the source, so
     * `dependencies` does not change.
     */
    method UseAlt()
      modifies this`usingAltVer, this`selected
      ensures Ambiguous(versionStatus) ==> usingAltVer && selected
      ensures !Ambiguous(versionStatus) ==> usingAltVer == old(usingAltVer) && selected == old(selected)
    {
      if Ambiguous(versionStatus) {
        usingAltVer := true;
        selected := true;
      }
    }

    /**
     * `use_alt` as written (modtools/mod.py:47-55): the decorator makes
     * `use_alt` a property whose getter is `using_alt_ver`, so `mod.use_alt()`
     * reads a bool and calls it. TypeError is raised before the body runs,
     * and the mod does not change.
     */
    method UseAltAsWritten() returns (r: Result<(), Exception>)
      ensures r == Err(TypeError)
    {
      // the property read `mod.use_alt` yields the flag; calling it is the TypeError
      var flag := usingAltVer;
      r := Err(TypeError);
    }

    /**
     * `install` as written (modtools/mod.py:178-184), `api` being the shared
     * registry client. Without a version, `version['id']` raises at once.
     * With one, the bare id string is passed to `download`
     * (modtools/modtool.py:34-37), which ticks the limiter and then subscripts
     * the string with `"version_id"`: TypeError, which its `except` does not
     * catch. The mod keeps its path and its `installed` flag.
     */
    method InstallAsWritten(api: ModtoolsModtool.ModrinthApi, now: int) returns (r: Result<FilePath, Exception>)
      requires api.Valid()
      modifies api
      ensures api.Valid()
      ensures r == Err(TypeError)
      ensures ChosenVersion().Chosen? ==> api.State() == Limiter.WindowTick(old(api.State()), now).window
      ensures !ChosenVersion().Chosen? ==> api.State() == old(api.State())
      ensures path == old(path) && installed == old(installed)
    {
      if !ChosenVersion().Chosen? {
        return Err(TypeError);
      }
      var _ := api.Ratelimit(now);
      r := Err(TypeError);
    }

    /**
     * `install` repaired: the registry's record for the chosen version
     * (`answer`, whose `id` is that version's) goes to `download`, and the
     * file it reports is recorded as the mod's path, in `installDir`.
     * `existing` is the set of files already on disk.
     */
    method Install(api: ModtoolsModtool.ModrinthApi, now: int, answer: Version, installDir: string,
                   existing: set<string>) returns (r: Result<FilePath, Exception>, files: set<string>)
      requires Valid() && api.Valid()
      requires ChosenVersion().Chosen? ==> answer.id == ChosenVersion().v.id
      modifies this`path, this`installed, api
      ensures Valid() && api.Valid()
      // without a version: TypeError before any request, nothing changes
      ensures !ChosenVersion().Chosen? ==>
        r == Err(TypeError) && files == existing && api.State() == old(api.State())
      ensures ChosenVersion().Chosen? ==> api.State() == Limiter.Ticks(old(api.State()), now, 2).0
      // the download's failures leave the mod as it was
      ensures r.Err? ==> path == old(path) && installed == old(installed) && files == existing
      ensures ChosenVersion().Chosen? && answer.files == [] ==> r == Err(IndexError)
      ensures ChosenVersion().Chosen? && answer.files != [] ==>
        var name := answer.files[0].filename;
        if installDir + name in existing then r == Err(FileExistsError)
        else
          && r == Ok(FilePath(installDir, name)) && files == existing + {installDir + name}
          && path == Some(FilePath(installDir, name)) && installed
    {
      if !ChosenVersion().Chosen? {
        return Err(TypeError), existing;
      }
      var downloaded;
      downloaded, files := api.Download(now, answer, installDir, existing);
      if downloaded.Err? {
        return Err(downloaded.error), files;
      }
      var location := FilePath(installDir, downloaded.value);
      path := Some(location);
      installed := true;
      r := Ok(location);
    }

    /**
     * `locate_file` (modtools/mod.py:187-194); `onDisk` is the set of paths
     * that exist as files. A mod never installed has no path, and
     * `None.is_file()` raises.
     */
    method LocateFile(onDisk: set<FilePath>) returns (r: Result<Option<FilePath>, Exception>)
      requires Valid()
      modifies this`installed
      ensures Valid()
      ensures old(path).None? ==> r == Err(AttributeError) && installed == old(installed)
      ensures old(path).Some? && old(path).value in onDisk ==> r == Ok(path) && installed == old(installed)
      ensures old(path).Some? && old(path).value !in onDisk ==> r == Ok(None) && !installed
    {
      if path.None? {
        return Err(AttributeError);
      }
      if path.value in onDisk {
        return Ok(path);
      }
      if !installed {
        return Ok(None);
      }
      installed := false;
      r := Ok(None);
    }

    /** `create_dict` (modtools/mod.py:199-209): the manifest entry of a selected mod. */
    function CreateDict(): (r: Result<Option<ManifestEntry>, Exception>)
      reads this
      requires Valid()
      // nothing unless the mod is selected
      ensures r == Ok(None) <==> !selected
      // a selected mod without a version fails on subscripting `None`
      ensures selected && !ChosenVersion().Chosen? ==> r == Err(TypeError)
      // a selected mod whose version is known fails only on `self.dependencies` never being set
      ensures selected && ChosenVersion().Chosen? ==> (r.Err? <==> dependencies.Unassigned?)
      ensures selected && ChosenVersion().Chosen? && dependencies.Unassigned? ==> r == Err(AttributeError)
      ensures r.Ok? && r.value.Some? ==>
        var e := r.value.value;
        && e.name == slug && e.projectId == projectId
        // the version is the alternate exactly when the alternate is in use
        && (usingAltVer ==> versionAlt.Chosen? && e.versionId == versionAlt.v.id && e.version == versionAlt.v.name)
        && (!usingAltVer ==> version.Chosen? && e.versionId == version.v.id && e.version == version.v.name)
        // the file is recorded only for an installed mod
        && (installed ==> e.file == path.value.name)
        && (!installed ==> e.file == NotInstalled)
        && (dependencies.Fetched? ==> e.dependencies == dependencies.ids)
        && (dependencies.NoneDependencies? ==> e.dependencies == [])
    {
      if !selected then Ok(None)
      else
        var chosen := ChosenVersion();
        if !chosen.Chosen? then Err(TypeError)
        else if dependencies.Unassigned? then Err(AttributeError)
        else
          Ok(Some(ManifestEntry(
            slug, projectId, chosen.v.name, chosen.v.id,
            if installed then path.value.name else NotInstalled,
            if dependencies.Fetched? then dependencies.ids else [])))
    }
  }

  /**
   * A mod whose ambiguous status is settled by switching to the alternate has
   * no `dependencies` attribute: `__init__` fetched them only for a mod that
   * was already selected, and the switch discards what it fetches. Building
   * such a mod, switching it and asking for its manifest entry raises.
   */
  method AlternateChoiceLosesDependencies(slug: string, projectId: string, gameVersion: string,
                                          all: seq<Version>, responses: string -> Version)
    returns (d: Result<Option<ManifestEntry>, Exception>)
    requires Ambiguous(SelectVersions(all, gameVersion).status)
    ensures d == Err(AttributeError)
  {
    var m := new Mod(slug, projectId, gameVersion, None, all, responses);
    m.UseAlt();
    d := m.CreateDict();
  }
}
