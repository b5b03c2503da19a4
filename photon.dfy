/** models/photon.go: filling the join-validation payload from a user. */
module Photon {
  import opened Wrappers
  import opened Common
  import opened Assets
  import opened Avatars
  import opened Users

  /** PhotonPropUser: the user as the real-time transport sees it. */
  datatype PhotonPropUser = PhotonPropUser(
    id: string,
    displayName: string,
    developerType: string,
    currentAvatarImageUrl: string,
    currentAvatarThumbnailImageUrl: string,
    userIcon: string,
    lastPlatform: string,
    status: string,
    statusDescription: string,
    bio: string,
    tags: seq<string>,
    unityPackages: seq<APIUnityPackage>,
    allowAvatarCopying: bool)

  /** PhotonPropAvatarDict: an avatar as the real-time transport sees it. */
  datatype PhotonPropAvatarDict = PhotonPropAvatarDict(
    id: string,
    assetUrl: string,
    authorId: string,
    authorName: string,
    updatedAt: FormattedTime,
    description: string,
    featured: bool,
    imageUrl: string,
    thumbnailImageUrl: string,
    name: string,
    releaseStatus: string,
    version: int,
    tags: seq<string>,
    unityPackages: seq<APIUnityPackage>)

  /** The error FillFromUser returns when an avatar author cannot be fetched. */
  const AvatarAuthorNil: string := "avatar author was nil"

  /**
   * The current avatar's image URL as the payload shows it: blank when the user has
   * a profile-picture override, the avatar's own otherwise. The thumbnail uses the
   * same file.
   */
  function ShownAvatarImageUrl(u: User): (url: string)
    reads u, u.currentAvatar
    ensures u.profilePicOverride != "" ==> url == ""
    ensures u.profilePicOverride == "" ==> url == u.currentAvatar.image.latestVersionUrl
  {
    if u.profilePicOverride != "" then "" else u.currentAvatar.ImageUrl()
  }

  /** The PhotonPropUser built from u: the user's own fields and the shown avatar image. */
  function PropUserOf(u: User): (p: PhotonPropUser)
    reads u, u.currentAvatar
    ensures u.profilePicOverride != "" ==> p.currentAvatarImageUrl == "" && p.currentAvatarThumbnailImageUrl == ""
    ensures u.profilePicOverride == "" ==>
      p.currentAvatarImageUrl == u.currentAvatar.image.latestVersionUrl
      && p.currentAvatarThumbnailImageUrl == u.currentAvatar.image.latestVersionUrl
    ensures p.id == u.id && p.displayName == u.displayName && p.developerType == u.developerType
    ensures p.userIcon == u.userIcon && p.lastPlatform == u.lastPlatform && p.status == u.status
    ensures p.statusDescription == u.statusDescription && p.bio == u.bio && p.tags == u.tags
    ensures p.allowAvatarCopying == u.allowAvatarCopying && p.unityPackages == []
  {
    PhotonPropUser(
      id := u.id,
      displayName := u.displayName,
      developerType := u.developerType,
      currentAvatarImageUrl := ShownAvatarImageUrl(u),
      currentAvatarThumbnailImageUrl := ShownAvatarImageUrl(u),
      userIcon := u.userIcon,
      lastPlatform := u.lastPlatform,
      status := u.status,
      statusDescription := u.statusDescription,
      bio := u.bio,
      tags := u.tags,
      unityPackages := [],
      allowAvatarCopying := u.allowAvatarCopying)
  }

  /**
   * The PhotonPropAvatarDict of avatar a, given its author's display name and the
   * image URLs to show: the avatar's own fields, its GetAssetUrl URL and its
   * packages in order.
   */
  function AvatarDictOf(a: Avatar, authorName: string, imageUrl: string, thumbnailImageUrl: string): (d: PhotonPropAvatarDict)
    reads a
    ensures d.id == a.id && d.authorId == a.authorId && d.authorName == authorName
    ensures d.name == a.name && d.version == a.version && d.tags == a.tags && d.releaseStatus == a.releaseStatus
    ensures d.description == a.description && d.updatedAt == Rfc3339NanoUtc(a.createdAt) && !d.featured
    ensures d.imageUrl == imageUrl && d.thumbnailImageUrl == thumbnailImageUrl
    ensures d.assetUrl == AssetUrlOf(a.unityPackages)
    ensures |d.unityPackages| == |a.unityPackages|
    ensures forall k :: 0 <= k < |a.unityPackages| ==> d.unityPackages[k] == AvatarPackageView(a.unityPackages[k])
  {
    PhotonPropAvatarDict(
      id := a.id,
      assetUrl := AssetUrlOf(a.unityPackages),
      authorId := a.authorId,
      authorName := authorName,
      updatedAt := Rfc3339NanoUtc(a.createdAt),
      description := a.description,
      featured := false,
      imageUrl := imageUrl,
      thumbnailImageUrl := thumbnailImageUrl,
      name := a.name,
      releaseStatus := a.releaseStatus,
      version := a.version,
      tags := a.tags,
      unityPackages := AvatarPackageViews(a.unityPackages))
  }

  /** PhotonValidateJoinJWTResponse, the payload a join-token validation answers with. */
  class PhotonValidateJoinJWTResponse {
    var time: string
    var valid: bool
    var user: PhotonPropUser
    var ip: string
    var avatarDict: PhotonPropAvatarDict
    var fallbackAvatarDict: PhotonPropAvatarDict
    var worldCapacity: int
    var worldAuthor: string
    var instanceCreator: string

    /**
     * FillFromUser. authorOf stands for the users-table lookup that GetAuthor makes
     * for an avatar's author ID; lookups lists, in order, the author IDs it was asked
     * for. The user part is written first, so it stays written when a lookup fails;
     * the two avatar parts are written only when both lookups succeed. The fallback
     * avatar always shows its own image, override or not.
     */
    method FillFromUser(u: User, authorOf: string -> Result<Author, DbError>)
      returns (err: Option<string>, lookups: seq<string>)
      modifies this`user, this`avatarDict, this`fallbackAvatarDict
      ensures user == PropUserOf(u)
      ensures var current, fallback := authorOf(u.currentAvatar.authorId), authorOf(u.fallbackAvatar.authorId);
        && lookups == (if current.Failure? then [u.currentAvatar.authorId]
                       else [u.currentAvatar.authorId, u.fallbackAvatar.authorId])
        && (err.Some? <==> current.Failure? || fallback.Failure?)
        && (err.Some? ==> err.value == AvatarAuthorNil
                          && avatarDict == old(avatarDict) && fallbackAvatarDict == old(fallbackAvatarDict))
        && (err.None? ==>
              && avatarDict == AvatarDictOf(u.currentAvatar, current.value.displayName,
                                            ShownAvatarImageUrl(u), ShownAvatarImageUrl(u))
              && fallbackAvatarDict == AvatarDictOf(u.fallbackAvatar, fallback.value.displayName,
                                                    u.fallbackAvatar.ImageUrl(), u.fallbackAvatar.ImageUrl()))
    {
      var avatarImageUrl := u.currentAvatar.ImageUrl();
      var avatarImageThumbnailUrl := u.currentAvatar.ImageUrl();
      var profilePicOverride := u.profilePicOverride;
      if profilePicOverride != "" {
        avatarImageUrl := "";
        avatarImageThumbnailUrl := "";
      }
      user := PhotonPropUser(
        id := u.id,
        displayName := u.displayName,
        developerType := u.developerType,
        currentAvatarImageUrl := avatarImageUrl,
        currentAvatarThumbnailImageUrl := avatarImageThumbnailUrl,
        userIcon := u.userIcon,
        lastPlatform := u.lastPlatform,
        status := u.status,
        statusDescription := u.statusDescription,
        bio := u.bio,
        tags := u.tags,
        unityPackages := [],
        allowAvatarCopying := u.allowAvatarCopying);

      lookups := [u.currentAvatar.authorId];
      var currAvAuthor := authorOf(u.currentAvatar.authorId);
      if currAvAuthor.Failure? {
        return Some(AvatarAuthorNil), lookups;
      }
      lookups := lookups + [u.fallbackAvatar.authorId];
      var fbAvAuthor := authorOf(u.fallbackAvatar.authorId);
      if fbAvAuthor.Failure? {
        return Some(AvatarAuthorNil), lookups;
      }

      var currentAssetUrl := u.currentAvatar.GetAssetUrl();
      var currentPackages := u.currentAvatar.GetUnityPackages();
      avatarDict := PhotonPropAvatarDict(
        id := u.currentAvatar.id,
        assetUrl := currentAssetUrl,
        authorId := u.currentAvatar.authorId,
        authorName := currAvAuthor.value.displayName,
        updatedAt := Rfc3339NanoUtc(u.currentAvatar.createdAt),
        description := u.currentAvatar.description,
        featured := false,
        imageUrl := avatarImageUrl,
        thumbnailImageUrl := avatarImageThumbnailUrl,
        name := u.currentAvatar.name,
        releaseStatus := u.currentAvatar.releaseStatus,
        version := u.currentAvatar.version,
        tags := u.currentAvatar.tags,
        unityPackages := currentPackages);

      var fallbackAssetUrl := u.fallbackAvatar.GetAssetUrl();
      var fallbackPackages := u.fallbackAvatar.GetUnityPackages();
      fallbackAvatarDict := PhotonPropAvatarDict(
        id := u.fallbackAvatar.id,
        assetUrl := fallbackAssetUrl,
        authorId := u.fallbackAvatar.authorId,
        authorName := fbAvAuthor.value.displayName,
        updatedAt := Rfc3339NanoUtc(u.fallbackAvatar.createdAt),
        description := u.fallbackAvatar.description,
        featured := false,
        imageUrl := u.fallbackAvatar.ImageUrl(),
        thumbnailImageUrl := u.fallbackAvatar.ImageUrl(),
        name := u.fallbackAvatar.name,
        releaseStatus := u.fallbackAvatar.releaseStatus,
        version := u.fallbackAvatar.version,
        tags := u.fallbackAvatar.tags,
        unityPackages := fallbackPackages);
      return None, lookups;
    }
  }
}
