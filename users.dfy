/**
 * The fields of models.User that the update validators and the join-validation
 * payload read or write. The rest of models.User, and IsStaff, are not part of
 * this model; callers pass IsStaff's answer in.
 */
module Users {
  import Avatars

  class User {
    var id: string
    var displayName: string
    var developerType: string
    var status: string
    var statusDescription: string
    var bio: string
    var userIcon: string
    var profilePicOverride: string
    var tags: seq<string>
    var homeWorldId: string
    var pendingEmail: string
    var lastPlatform: string
    var allowAvatarCopying: bool
    var currentAvatar: Avatars.Avatar
    var fallbackAvatar: Avatars.Avatar

    /**
     * A user with the given ID and avatars and every other field at its zero value.
     * Dafny needs it because the avatar fields have no default value.
     */
    constructor (id: string, currentAvatar: Avatars.Avatar, fallbackAvatar: Avatars.Avatar)
      ensures this.id == id && this.currentAvatar == currentAvatar && this.fallbackAvatar == fallbackAvatar
      ensures status == "" && statusDescription == "" && bio == "" && userIcon == ""
      ensures profilePicOverride == "" && tags == [] && homeWorldId == "" && pendingEmail == ""
    {
      this.id := id;
      this.currentAvatar := currentAvatar;
      this.fallbackAvatar := fallbackAvatar;
      displayName, developerType, lastPlatform := "", "", "";
      status, statusDescription, bio, userIcon, profilePicOverride := "", "", "", "", "";
      tags, homeWorldId, pendingEmail := [], "", "";
      allowAvatarCopying := false;
    }
  }
}
