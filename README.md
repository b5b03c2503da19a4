# shoya-go core, modelled in Dafny

A model of the deterministic core of shoya-go, a server for a VR social platform's API. The model covers:

- **User-update validators** (`request_models.go`). Each `*Checks` method of `UpdateUserRequest` either declines, or refuses with an error, or writes one field of the user. The fields are status, status description, bio, user icon, profile-picture override, tags, home location and pending e-mail. `isValidLanguageTag` and the language-tag list are modelled too.
- **Info-push selection** (`getInfoPush`, `api/system_routes.go`). It picks pushes from the configured list by the comma-separated `require` and `include` query parameters.
- **World and avatar records** (`models/world.go`, `models/avatar.go`):
  - the ID hooks run before an insert;
  - the "latest asset URL" loops;
  - the package lists;
  - the API views built after an author lookup.
- **Join-validation payload** (`FillFromUser`, `models/photon.go`), filled from a user and their two avatars.
- **Instance handlers** (`getInstance` and `joinInstance`, `api/instance_routes.go`): the shape of the describe-instance response, and the order of the joining steps.

Code that works by changing state is modelled as imperative Dafny:

- The records (`World`, `Avatar`, `User`, `PhotonValidateJoinJWTResponse`) are classes.
- Their methods use `modifies` frames of exactly the fields they write.
- Each loop keeps its loop, with an invariant that ties it to a specification function.

The struct-literal views are functions. Each user-update check first has its outcome stated as a `Decision`: skip, reject with an error, or apply a value. The method then ensures that the pair it returns and the user field it writes are the ones that decision gives.

The following become inputs of the model:

- the database;
- the author lookups;
- `ParseLocationString` and `CreateJoinToken`;
- `User.IsStaff`, `User.CheckPassword` and UUID generation.

An input is either a plain value, such as `staff: bool` or `uuid: string`, or a total function, such as `authorOf: string -> Result<Author, DbError>`. Where the order of calls matters, the methods return the sequence of collaborator calls they made.

Defects in the source are modelled as the code is written. The lemmas say what the code then does:

- **Language tags.** `strings.HasPrefix("language_", tag)` has its arguments the wrong way round (`request_models.go:151` and `:198`). As a result:
  - no tag is ever a valid language tag;
  - a tag update fails exactly when a tag that passes the staff gate is a prefix of `"language_"`;
  - the three-language-tag limit can never be reached.
- **Latest asset URL.** These loops never raise `maxVersion`, so they return the URL of the *last* package with a non-negative version.
- **Info-push dedup.** The loop in `getInfoPush` removes nothing, so a push matching both query lists is sent twice.

Go's `len` on strings counts UTF-8 bytes, and the model uses the UTF-8 length of the text for it. `strings.ToLower` is modelled on:

- the ASCII capitals;
- the two non-ASCII characters whose lower case is ASCII: U+0130 and the Kelvin sign U+212A.

These are the only characters that matter when comparing against the ASCII status names.

## Model

| member | source | states |
|---|---|---|
| RequestModels.DecisionOutcome | request_models.go:61-195 | A check returns true exactly when it writes its field. It returns an error exactly when it refuses. In every other case the field is unchanged. |
| RequestModels.EmailDecision | request_models.go:42-59 | An empty e-mail declines. A wrong password is refused with InvalidCredentials. A taken address is refused with UserWithEmailAlreadyExists. Otherwise, and only then, the e-mail becomes the pending e-mail. |
| RequestModels.EmailChecks | request_models.go:42-59 | The returned pair and the new pending e-mail follow EmailDecision; no other field is written. |
| RequestModels.StatusDecision | request_models.go:61-87 | An empty status declines. The status is accepted, in its lower case, exactly when it lowers to join me, active, ask me or busy, or to offline for staff. A non-staff offline is refused with the status-description error. Anything else is refused with InvalidUserStatus. |
| RequestModels.StatusIgnoresCase | request_models.go:67-83 | A status decides exactly as its lower-cased form does. |
| RequestModels.StatusChecks | request_models.go:61-87 | The Go switch returns StatusDecision's pair and writes the status only when it accepts; the status is unchanged on every error. |
| RequestModels.LengthBoundDecision | request_models.go:89-113 | Empty text declines. Text longer than the byte bound is refused with the field's error. Otherwise, and only then, the text is applied unchanged. |
| RequestModels.StatusDescriptionChecks | request_models.go:89-100 | A status description applies if it is at most 32 UTF-8 bytes; otherwise it fails with InvalidStatusDescription and the field keeps its old value. |
| RequestModels.BioChecks | request_models.go:102-113 | A bio applies if it is at most 512 UTF-8 bytes; otherwise it fails with InvalidBio and the field keeps its old value. |
| RequestModels.StaffOnlyDecision | request_models.go:115-139 | An empty value declines. A non-staff user is refused with the field's error. The value is applied exactly for staff. |
| RequestModels.UserIconChecks | request_models.go:115-126 | Only staff change the user icon; anyone else gets TriedToSetUserIconWithoutBeingStaff and no change. |
| RequestModels.ProfilePicOverrideChecks | request_models.go:128-139 | Only staff change the profile-picture override; anyone else gets the staff error and no change. |
| RequestModels.LanguageTagNeverAccepted | request_models.go:197-215 | As written, isValidLanguageTag accepts no tag at all. |
| RequestModels.IsValidLanguageTag | request_models.go:197-215 | The guard, the split on '_' and the linear search over ValidLanguageTags return exactly LanguageTagAccepted. |
| RequestModels.KeptRequestTags | request_models.go:148-162 | A tag is kept exactly when it is a request tag that starts with "language_", or any request tag when the user is staff. Kept tags stay in request order. |
| RequestModels.ProtectedTags | request_models.go:164-168 | A tag survives from the user exactly when it starts with system_ or admin_, in the user's order. |
| RequestModels.ScanRequestTagsAsWritten | request_models.go:148-162 | The first tag loop fails with InvalidLanguageTag exactly when a tag that passes the gate is a prefix of "language_". It never fails with TooManyLanguageTags. Otherwise it keeps exactly the gated tags, in order. |
| RequestModels.TagsDecisionAsWritten | request_models.go:141-172 | No request tags declines. A gated prefix of "language_" is refused. Otherwise the new tags are the kept request tags followed by the user's protected tags. |
| RequestModels.TagsAppliedMembers | request_models.go:141-172 | After a successful update, the user's tags are the gated request tags followed by their own system_/admin_ tags, and nothing else. |
| RequestModels.TooManyLanguageTagsUnreachable | request_models.go:155-158 | The three-language-tag limit is never what refuses an update. |
| RequestModels.NonStaffRejectedExactlyOnBareLanguageTag | request_models.go:149-154 | For a non-staff user the tags are refused exactly when the request contains "language_" itself. |
| RequestModels.StaffRejectedOnPrefixOfLanguage | request_models.go:141-154 | For staff, a request holding any prefix of "language_", including the empty tag, is refused with InvalidLanguageTag. |
| RequestModels.TagsChecks | request_models.go:141-172 | Both loops together return TagsDecision's pair and write TagsDecision's tags, or leave the tags untouched on error. |
| RequestModels.HomeLocationDecision | request_models.go:174-195 | An empty location declines. A missing world is refused with WorldNotFound. Any other query failure declines. A private world not authored by the user is refused for non-staff exactly. Otherwise the home world becomes the fetched world's ID. |
| RequestModels.HomeLocationChecks | request_models.go:174-195 | The returned pair and the new home world ID follow HomeLocationDecision. |
| SystemRoutes.GetInfoPush | api/system_routes.go:59-93 | The nested loops, with their labelled breaks and the dedup loop that removes nothing, return exactly InfoPushSelection of the two comma-split query strings. |
| SystemRoutes.SelectionAppend | api/system_routes.go:64-90 | Selecting from a concatenation is the concatenation of the selections. |
| SystemRoutes.SelectionMembers | api/system_routes.go:64-90 | A push is selected exactly when it is configured and one of its tags equals a tag from either query list. |
| SystemRoutes.SelectionLength | api/system_routes.go:64-90 | At most two entries are selected per configured push. |
| SystemRoutes.SelectionInOrder | api/system_routes.go:64-90 | Each selected entry is a configured push, and the selection follows configured order. |
| SystemRoutes.PushMatchingBothAppearsTwice | api/system_routes.go:65-89 | A push matching both lists appears twice, consecutively, at its place in the order. |
| SystemRoutes.AbsentQueryMatchesEmptyTag | api/system_routes.go:61-62 | An absent query parameter matches exactly the pushes that carry an empty tag. |
| GoStrings.Split | api/system_routes.go:61-62 | strings.Split gives at least one piece, none of which contains the separator. |
| GoStrings.JoinSplit | api/system_routes.go:61-62 | Joining the pieces of a split with the separator gives back the original string. |
| GoStrings.ToLower | request_models.go:67 | The lower case keeps the length; each character is lowered on its own. |
| GoStrings.ToLowerIdempotent | request_models.go:67-80 | Lowering twice is lowering once. |
| GoStrings.Utf8Length | request_models.go:94 | Go's byte length of a string lies between its character count and four times that count. |
| GoStrings.Utf8LengthOfAscii | request_models.go:107 | For ASCII text the byte length is the character count. |
| InstanceRoutes.WorldIdIsTextBeforeFirstColon | api/instance_routes.go:30 | The world ID the handlers compute is the text of the path ID before its first ':', or all of it when there is no ':'. |
| InstanceRoutes.InstanceFieldsDescribe | api/instance_routes.go:35-63 | The map literal, plus the key added for a non-public type, has exactly the twenty fixed keys, plus the type key when it is added. Each key holds its documented value unless the type key overwrote it. |
| InstanceRoutes.GetInstance | api/instance_routes.go:16-66 | A parse failure answers 500 with the parse error before any world lookup. A failed world query answers 500 "shit broke". Otherwise the body is a JSON object that describes the instance: IDs from the path and the location, capacity from the world, fixed placeholder values, and the owner under the type's name exactly when the type is not public. |
| InstanceRoutes.JoinInstance | api/instance_routes.go:67-95 | The world lookup, the parse and the token creation run in that order. Each failure answers 500 and stops. Success answers exactly {"token": t, "version": 1}. |
| InstanceRoutes.FailedJoinHasNoToken | api/instance_routes.go:71-88 | Every failure body is an object whose one key is "error", so it carries no token. |
| Assets.AssetUrlIsLastNonNegative | models/world.go:79-89 | The latest-asset URL is that of the last package whose version is non-negative. |
| Assets.AssetUrlEmptyWhenNoneQualifies | models/avatar.go:68-78 | With no package of non-negative version, or no package at all, the URL is empty. |
| Assets.AssetUrlComesFromLastNonNegative | models/world.go:79-89 | The URL is empty, or it is the URL of a non-negative-version package after which no package has a non-negative version. |
| Assets.OlderPackageListedLastWins | models/world.go:77-86 | The highest version is not what wins: [version 2, version 1] picks version 1's URL. |
| Assets.WorldPackageViews | models/world.go:92-99 | There is one view per world package, in package order, each built with the given withAssetUrls flag. |
| Assets.AvatarPackageViews | models/avatar.go:80-87 | There is one view per avatar package, in package order. |
| Worlds.World.BeforeCreate | models/world.go:26-29 | The world ID always becomes "wrld_" followed by the UUID, whatever it was before. |
| Worlds.World.GetLatestAssetUrl | models/world.go:79-89 | The loop returns AssetUrlOf of the world's packages: the last non-negative-version URL, or "". |
| Worlds.World.GetUnityPackages | models/world.go:92-99 | The append loop returns exactly the pointwise package views. |
| Worlds.World.GetAPIWorld | models/world.go:101-134 | A failed author lookup is passed on as is. Otherwise: the world's fields are copied; the author ID and name come from the fetched author; the image URLs come from the image file; the counters are 0; the organization is "vrchat"; there are no instances; the packages are built without asset URLs. |
| Worlds.World.GetAPIWorldWithPackages | models/world.go:135-145 | Errors of GetAPIWorld are passed on. Otherwise the result embeds that view, the latest-asset URL, an empty plugin URL, and the packages built with asset URLs. |
| Avatars.Avatar.BeforeCreate | models/avatar.go:25-30 | An empty ID becomes "avtr_" followed by the UUID. A preset ID is kept, so a second run changes nothing. |
| Avatars.Avatar.GetAssetUrl | models/avatar.go:68-78 | The loop returns AssetUrlOf of the avatar's packages. |
| Avatars.Avatar.GetUnityPackages | models/avatar.go:80-87 | The append loop returns exactly the pointwise package views. |
| Avatars.Avatar.GetAPIAvatar | models/avatar.go:97-117 | A failed author lookup is passed on. Otherwise the avatar's fields are copied, the author ID comes from the avatar and the author name from the fetched author, and the avatar is never featured. |
| Avatars.Avatar.GetAPIAvatarWithPackages | models/avatar.go:118-128 | Errors are passed on. Otherwise the result embeds the view, with the asset URL equal to GetAssetUrl's and the packages in order. |
| Photon.ShownAvatarImageUrl | models/photon.go:22-29 | The current-avatar image URL is blank when the user has a profile-picture override, and otherwise is the current avatar's latest image URL. |
| Photon.PropUserOf | models/photon.go:30-43 | The payload user copies the user's fields and blanks both current-avatar image URLs under an override. |
| Photon.AvatarDictOf | models/photon.go:54-83 | An avatar dict copies the avatar's ID, author ID, name, version, tags and release status. It takes the author name from the fetched author, and the asset URL and packages from the avatar. |
| Photon.PhotonValidateJoinJWTResponse.FillFromUser | models/photon.go:21-86 | The user part is written first. The current avatar's author is looked up before the fallback's, and a failure stops the lookups. On failure the error is "avatar author was nil" and both dicts are unchanged. On success the current dict shows the override-aware image, and the fallback dict always shows its own image. Time, valid, IP and the world fields are never written. |

## Left out

- gRPC stubs (`gen/v1/proto/files_grpc.pb.go`) and the WebSocket echo server (`ws/ws.go`): these are RPC and connection plumbing with no logic.
- The other handlers in `api/system_routes.go` (health, config, logout, time, visits, auto-config): they read cookies, the clock and global configuration.
- Database access: the preload chains of `GetWorldById`/`GetAvatarById`, `GetAuthor`, the e-mail uniqueness query, the home-world query, and the world query of the instance handlers.
  - Their outcomes are inputs: `authorOf`, `emailTaken`, `fetch` and `worldQuery`.
  - In the instance handlers, `Where` runs after `Find`, so the ID filter picks nothing. The model records the computed ID in the call trace but does not let it choose the world.
- `ParseLocationString`, `CreateJoinToken` and JWT signing: these are not part of this model. They are function inputs whose results or errors the handlers use. The location grammar is not modelled.
- `User.IsStaff` and `User.CheckPassword`: these are not part of this model. Their answers are the inputs `staff` and `passwordMatches`.
- `GetAPIUnityPackage` and `File.GetLatestVersion().GetFileUrl()`: these are not part of this model. A package view records the package it came from and the flag it was built with. A file is its latest version's URL.
- UUID generation is an input string. Time formatting (`time.Unix(...).Format(...)`) is kept symbolic: a timestamp and which layout and zone were used.
- JSON encoding: the distinction between a nil slice and an empty one, the `omitempty` fields, and the encoding of a Go error value (`JOpaque`). `PluginUrlObject`, `AssetUrlObject` and `UnityPackageUrlObject`, which are always nil, are not modelled.
- GoStrings.ToLower: models only ASCII capitals, U+0130 and U+212A. Go also lowers other non-ASCII letters, but those never lower to ASCII, so they cannot change a status decision.
- HTTP status handling beyond the 500/200 choice, as well as the middleware and the printed log lines.
- Concurrency: the handlers run on shared request contexts and a shared database handle, which the model does not represent.
