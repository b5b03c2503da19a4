/** models/avatar.go: the avatar record, its ID hook and its API views. */
module Avatars {
  import opened Wrappers
  import opened Common
  import opened Assets

  /** The API view of an avatar (APIAvatar). */
  datatype APIAvatar = APIAvatar(
    id: string,
    authorId: string,
    authorName: string,
    createdAt: FormattedTime,
    description: string,
    featured: bool,
    imageUrl: string,
    name: string,
    releaseStatus: string,
    tags: seq<string>,
    thumbnailImageUrl: string,
    version: int)

  /** APIAvatarWithPackages: the API view embedded, plus the asset URL and packages. */
  datatype APIAvatarWithPackages = APIAvatarWithPackages(
    avatar: APIAvatar,
    assetUrl: string,
    unityPackages: seq<APIUnityPackage>)

  /** An avatar row, as loaded with its image and packages. */
  class Avatar {
    var id: string
    var createdAt: int
    var updatedAt: int
    var authorId: string
    var name: string
    var description: string
    var image: File
    var releaseStatus: string
    var tags: seq<string>
    var version: int
    var unityPackages: seq<UnityPackage>

    /**
     * The hook run before an insert: a fresh "avtr_" ID only when none is set, so a
     * preset ID survives and a second run changes nothing. uuid stands for
     * uuid.New().String().
     */
    method BeforeCreate(uuid: string)
      modifies this`id
      ensures old(id) == "" ==> id == "avtr_" + uuid
      ensures old(id) != "" ==> id == old(id)
    {
      if id == "" {
        id := "avtr_" + uuid;
      }
    }

    /** GetImageUrl and GetThumbnailImageUrl: both read the latest image file. */
    function ImageUrl(): string
      reads this
    {
      image.latestVersionUrl
    }

    /** GetAssetUrl: the URL of the last package with a non-negative version. */
    method GetAssetUrl() returns (assetUrl: string)
      ensures assetUrl == AssetUrlOf(unityPackages)
    {
      assetUrl := "";
      var maxVersion := 0;
      for i := 0 to |unityPackages|
        invariant assetUrl == AssetUrlOf(unityPackages[..i])
      {
        var pkg := unityPackages[i];
        if pkg.version >= maxVersion {
          assetUrl := pkg.file.latestVersionUrl;
        }
        assert unityPackages[..i + 1][..i] == unityPackages[..i];
      }
      assert unityPackages[..|unityPackages|] == unityPackages;
    }

    /** GetUnityPackages: one view per package, in package order. */
    method GetUnityPackages() returns (pkgs: seq<APIUnityPackage>)
      ensures pkgs == AvatarPackageViews(unityPackages)
    {
      pkgs := [];
      for i := 0 to |unityPackages|
        invariant pkgs == AvatarPackageViews(unityPackages[..i])
      {
        pkgs := pkgs + [AvatarPackageView(unityPackages[i])];
      }
      assert unityPackages[..|unityPackages|] == unityPackages;
    }

    /**
     * GetAPIAvatar. authorOf stands for the users-table lookup of GetAuthor. A
     * failed lookup is passed on; otherwise the view copies the avatar's fields,
     * takes AuthorID from the avatar and AuthorName from the fetched author, and is
     * never featured.
     */
    function GetAPIAvatar(authorOf: string -> Result<Author, DbError>): (r: Result<APIAvatar, DbError>)
      reads this
      ensures authorOf(authorId).Failure? ==> r == Failure(authorOf(authorId).error)
      ensures authorOf(authorId).Success? ==> r.Success?
      ensures r.Success? ==>
        && r.value.id == id
        && r.value.authorId == authorId
        && r.value.authorName == authorOf(authorId).value.displayName
        && r.value.createdAt == Rfc3339NanoUtc(createdAt)
        && r.value.description == description
        && !r.value.featured
        && r.value.imageUrl == image.latestVersionUrl
        && r.value.thumbnailImageUrl == image.latestVersionUrl
        && r.value.name == name
        && r.value.releaseStatus == releaseStatus
        && r.value.tags == tags
        && r.value.version == version
    {
      match authorOf(authorId)
      case Failure(e) => Failure(e)
      case Success(au) =>
        Success(APIAvatar(
          id := id,
          authorId := authorId,
          authorName := au.displayName,
          createdAt := Rfc3339NanoUtc(createdAt),
          description := description,
          featured := false,
          imageUrl := ImageUrl(),
          name := name,
          releaseStatus := releaseStatus,
          tags := tags,
          thumbnailImageUrl := ImageUrl(),
          version := version))
    }

    /**
     * GetAPIAvatarWithPackages: the errors of GetAPIAvatar, or its view together with
     * the GetAssetUrl URL and the avatar's packages in order.
     */
    function GetAPIAvatarWithPackages(authorOf: string -> Result<Author, DbError>): (r: Result<APIAvatarWithPackages, DbError>)
      reads this
      ensures GetAPIAvatar(authorOf).Failure? ==> r == Failure(GetAPIAvatar(authorOf).error)
      ensures GetAPIAvatar(authorOf).Success? ==>
        && r.Success?
        && r.value.avatar == GetAPIAvatar(authorOf).value
        && r.value.assetUrl == AssetUrlOf(unityPackages)
        && |r.value.unityPackages| == |unityPackages|
        && forall k :: 0 <= k < |unityPackages| ==> r.value.unityPackages[k] == AvatarPackageView(unityPackages[k])
    {
      match GetAPIAvatar(authorOf)
      case Failure(e) => Failure(e)
      case Success(aa) =>
        Success(APIAvatarWithPackages(aa, AssetUrlOf(unityPackages), AvatarPackageViews(unityPackages)))
    }
  }
}
