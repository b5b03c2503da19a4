/**
 * Uploaded files and Unity packages as the world and avatar records hold them, and
 * the selection rule that both records use to pick "the" asset URL.
 */
module Assets {

  /**
   * A stored file. Only the URL of its latest version is modelled: it is what
   * File.GetLatestVersion().GetFileUrl() yields, code that is not part of this model.
   */
  datatype File = File(latestVersionUrl: string)

  /** A WorldUnityPackage or AvatarUnityPackage row: its version and its file. */
  datatype UnityPackage = UnityPackage(version: int, file: File)

  /**
   * The API view of a package. GetAPIUnityPackage builds it, in code that is not part
   * of this model, so the view records which package it was built from and, for
   * world packages, the withAssetUrls flag it was built with.
   */
  datatype APIUnityPackage =
    | WorldPackageView(worldPackage: UnityPackage, withAssetUrl: bool)
    | AvatarPackageView(avatarPackage: UnityPackage)

  /**
   * The URL that the "latest asset URL" loop of worlds and avatars returns. The loop
   * compares each version with maxVersion, which starts at 0 and is never raised, so
   * the last package whose version is non-negative wins, not the highest version.
   */
  function AssetUrlOf(pkgs: seq<UnityPackage>): string
  {
    if pkgs == [] then ""
    else if pkgs[|pkgs| - 1].version >= 0 then pkgs[|pkgs| - 1].file.latestVersionUrl
    else AssetUrlOf(pkgs[..|pkgs| - 1])
  }

  /** The URL is that of the last package with a non-negative version. */
  lemma {:induction false} AssetUrlIsLastNonNegative(pkgs: seq<UnityPackage>, k: nat)
    requires k < |pkgs| && pkgs[k].version >= 0
    requires forall j :: k < j < |pkgs| ==> pkgs[j].version < 0
    ensures AssetUrlOf(pkgs) == pkgs[k].file.latestVersionUrl
    decreases |pkgs|
  {
    if k < |pkgs| - 1 {
      var init := pkgs[..|pkgs| - 1];
      assert forall j :: k < j < |init| ==> init[j] == pkgs[j];
      AssetUrlIsLastNonNegative(init, k);
    }
  }

  /** With no package of non-negative version (or none at all) the URL is empty. */
  lemma {:induction false} AssetUrlEmptyWhenNoneQualifies(pkgs: seq<UnityPackage>)
    requires forall j :: 0 <= j < |pkgs| ==> pkgs[j].version < 0
    ensures AssetUrlOf(pkgs) == ""
    decreases |pkgs|
  {
    if pkgs != [] {
      var init := pkgs[..|pkgs| - 1];
      assert forall j :: 0 <= j < |init| ==> init[j] == pkgs[j];
      AssetUrlEmptyWhenNoneQualifies(init);
    }
  }

  /**
   * The selected URL is the empty string or the URL of a package with a
   * non-negative version, and no later package has a non-negative version.
   */
  lemma {:induction false} AssetUrlComesFromLastNonNegative(pkgs: seq<UnityPackage>)
    ensures AssetUrlOf(pkgs) == ""
         || exists k :: 0 <= k < |pkgs| && pkgs[k].version >= 0
                        && AssetUrlOf(pkgs) == pkgs[k].file.latestVersionUrl
                        && forall j :: k < j < |pkgs| ==> pkgs[j].version < 0
    decreases |pkgs|
  {
    if pkgs != [] && pkgs[|pkgs| - 1].version < 0 {
      var init := pkgs[..|pkgs| - 1];
      AssetUrlComesFromLastNonNegative(init);
      if AssetUrlOf(init) != "" {
        var k :| 0 <= k < |init| && init[k].version >= 0
                 && AssetUrlOf(init) == init[k].file.latestVersionUrl
                 && forall j :: k < j < |init| ==> init[j].version < 0;
        assert pkgs[k] == init[k];
        assert forall j :: k < j < |pkgs| ==> pkgs[j].version < 0 by {
          forall j | k < j < |pkgs| ensures pkgs[j].version < 0 {
            if j < |init| { assert pkgs[j] == init[j]; }
          }
        }
      }
    }
  }

  /**
   * A world's package views, one per package and in the same order, each built
   * with the given withAssetUrls flag.
   */
  function WorldPackageViews(pkgs: seq<UnityPackage>, withAssetUrls: bool): (views: seq<APIUnityPackage>)
    ensures |views| == |pkgs|
    ensures forall k :: 0 <= k < |pkgs| ==> views[k] == WorldPackageView(pkgs[k], withAssetUrls)
  {
    seq(|pkgs|, k requires 0 <= k < |pkgs| => WorldPackageView(pkgs[k], withAssetUrls))
  }

  /** An avatar's package views, one per package and in the same order. */
  function AvatarPackageViews(pkgs: seq<UnityPackage>): (views: seq<APIUnityPackage>)
    ensures |views| == |pkgs|
    ensures forall k :: 0 <= k < |pkgs| ==> views[k] == AvatarPackageView(pkgs[k])
  {
    seq(|pkgs|, k requires 0 <= k < |pkgs| => AvatarPackageView(pkgs[k]))
  }

  /**
   * The version order is ignored: a newer package listed before an older one is not
   * chosen, [version 2 "new", version 1 "old"] selects "old".
   */
  lemma OlderPackageListedLastWins()
    ensures AssetUrlOf([UnityPackage(2, File("new")), UnityPackage(1, File("old"))]) == "old"
  {
  }
}
