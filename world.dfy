/** models/world.go: the world record, its ID hook and its API views. */
module Worlds {
  import opened Wrappers
  import opened Common
  import opened Assets

  /** The API view of a world (APIWorld); PluginUrlObject, always nil, is left out. */
  datatype APIWorld = APIWorld(
    id: string,
    authorId: string,
    authorName: string,
    capacity: int,
    createdAt: FormattedTime,
    description: string,
    favorites: int,
    featured: bool,
    namespace: string,
    popularity: int,
    heat: int,
    imageUrl: string,
    instances: seq<seq<string>>,
    publicationDate: FormattedTime,
    labsPublicationDate: string,
    name: string,
    occupants: int,
    organization: string,
    previewYoutubeId: string,
    privateOccupants: int,
    publicOccupants: int,
    releaseStatus: string,
    tags: seq<string>,
    thumbnailImageUrl: string,
    version: int,
    visits: int,
    unityPackages: seq<APIUnityPackage>,
    updatedAt: FormattedTime)

  /**
   * APIWorldWithPackages: the API view embedded, with the asset URL, the (always
   * empty) plugin URL and the packages built with their asset URLs. The outer
   * unityPackages field is the one the JSON encoding shows.
   */
  datatype APIWorldWithPackages = APIWorldWithPackages(
    world: APIWorld,
    assetUrl: string,
    pluginUrl: string,
    unityPackages: seq<APIUnityPackage>)

  /** The organization every world belongs to. */
  const Organization: string := "vrchat"

  /** A world row, as loaded with its image and packages. */
  class World {
    var id: string
    var createdAt: int
    var updatedAt: int
    var authorId: string
    var name: string
    var description: string
    var capacity: int
    var image: File
    var releaseStatus: string
    var tags: seq<string>
    var version: int
    var unityPackages: seq<UnityPackage>

    /**
     * The hook run before an insert: the ID always becomes "wrld_" and a fresh
     * UUID, whatever it was. uuid stands for uuid.New().String().
     */
    method BeforeCreate(uuid: string)
      modifies this`id
      ensures id == "wrld_" + uuid
    {
      id := "wrld_" + uuid;
    }

    /** GetImageUrl and GetThumbnailImageUrl: both read the latest image file. */
    function ImageUrl(): string
      reads this
    {
      image.latestVersionUrl
    }

    /** GetLatestAssetUrl: the URL of the last package with a non-negative version. */
    method GetLatestAssetUrl() returns (assetUrl: string)
      ensures assetUrl == AssetUrlOf(unityPackages)
    {
      assetUrl := "";
      var maxVersion := 0;
      for i := 0 to |unityPackages|
        invariant assetUrl == AssetUrlOf(unityPackages[..i])
      {
        var pkg := unityPackages[i];
        if pkg.version >= maxVersion {
          assetUrl := pkg.file.latestVersionUrl;
        }
        assert unityPackages[..i + 1][..i] == unityPackages[..i];
      }
      assert unityPackages[..|unityPackages|] == unityPackages;
    }

    /** GetUnityPackages: one view per package, in package order. */
    method GetUnityPackages(withAssetUrls: bool) returns (pkgs: seq<APIUnityPackage>)
      ensures pkgs == WorldPackageViews(unityPackages, withAssetUrls)
    {
      pkgs := [];
      for i := 0 to |unityPackages|
        invariant pkgs == WorldPackageViews(unityPackages[..i], withAssetUrls)
      {
        pkgs := pkgs + [WorldPackageView(unityPackages[i], withAssetUrls)];
      }
      assert unityPackages[..|unityPackages|] == unityPackages;
    }

    /**
     * GetAPIWorld. authorOf stands for the users-table lookup of GetAuthor. A failed
     * lookup is passed on; otherwise the view copies the world's fields, takes
     * AuthorID and AuthorName from the fetched author, fixes the counters at 0 and
     * the organization at "vrchat", and lists no instances.
     */
    function GetAPIWorld(authorOf: string -> Result<Author, DbError>): (r: Result<APIWorld, DbError>)
      reads this
      ensures authorOf(authorId).Failure? ==> r == Failure(authorOf(authorId).error)
      ensures authorOf(authorId).Success? ==> r.Success?
      ensures r.Success? ==>
        var a := authorOf(authorId).value;
        && r.value.id == id
        && r.value.authorId == a.id
        && r.value.authorName == a.displayName
        && r.value.capacity == capacity
        && r.value.createdAt == Rfc3339NanoUtc(createdAt)
        && r.value.description == description
        && r.value.name == name
        && r.value.releaseStatus == releaseStatus
        && r.value.tags == tags
        && r.value.version == version
        && r.value.imageUrl == image.latestVersionUrl
        && r.value.thumbnailImageUrl == image.latestVersionUrl
        && r.value.publicationDate == Rfc3339Local(createdAt)
        && r.value.updatedAt == Rfc3339NanoUtc(updatedAt)
        && r.value.unityPackages == WorldPackageViews(unityPackages, false)
        && r.value.favorites == 0 && r.value.heat == 0 && r.value.occupants == 0
        && r.value.privateOccupants == 0 && r.value.publicOccupants == 0 && r.value.visits == 0
        && r.value.organization == "vrchat"
        && r.value.instances == []
        && r.value.labsPublicationDate == "" && r.value.previewYoutubeId == ""
    {
      match authorOf(authorId)
      case Failure(e) => Failure(e)
      case Success(a) =>
        Success(APIWorld(
          id := id,
          authorId := a.id,
          authorName := a.displayName,
          capacity := capacity,
          createdAt := Rfc3339NanoUtc(createdAt),
          description := description,
          favorites := 0,
          featured := false,
          namespace := "",
          popularity := 0,
          heat := 0,
          imageUrl := ImageUrl(),
          instances := [],
          publicationDate := Rfc3339Local(createdAt),
          labsPublicationDate := "",
          name := name,
          occupants := 0,
          organization := Organization,
          previewYoutubeId := "",
          privateOccupants := 0,
          publicOccupants := 0,
          releaseStatus := releaseStatus,
          tags := tags,
          thumbnailImageUrl := ImageUrl(),
          version := version,
          visits := 0,
          unityPackages := WorldPackageViews(unityPackages, false),
          updatedAt := Rfc3339NanoUtc(updatedAt)))
    }

    /**
     * GetAPIWorldWithPackages: the errors of GetAPIWorld, or its view together with
     * the GetLatestAssetUrl URL and the packages built with their asset URLs.
     */
    function GetAPIWorldWithPackages(authorOf: string -> Result<Author, DbError>): (r: Result<APIWorldWithPackages, DbError>)
      reads this
      ensures GetAPIWorld(authorOf).Failure? ==> r == Failure(GetAPIWorld(authorOf).error)
      ensures GetAPIWorld(authorOf).Success? ==>
        && r.Success?
        && r.value.world == GetAPIWorld(authorOf).value
        && r.value.assetUrl == AssetUrlOf(unityPackages)
        && r.value.pluginUrl == ""
        && |r.value.unityPackages| == |unityPackages|
        && forall k :: 0 <= k < |unityPackages| ==> r.value.unityPackages[k] == WorldPackageView(unityPackages[k], true)
    {
      match GetAPIWorld(authorOf)
      case Failure(e) => Failure(e)
      case Success(a) =>
        Success(APIWorldWithPackages(a, AssetUrlOf(unityPackages), "", WorldPackageViews(unityPackages, true)))
    }
  }
}
