/**
 * request_models.go: the checks that apply one field of a user-update request to a
 * user. Each check either declines (returns false and no error) and changes
 * nothing, or fails with an error and changes nothing, or writes exactly one field
 * of the user and returns true.
 */
module RequestModels {
  import opened Wrappers
  import opened GoStrings
  import opened Users

  /** The models.*ErrorInUserUpdate error values (and WorldIsPrivateAndNotOwnedByUser). */
  datatype UpdateError =
    | InvalidCredentials
    | UserWithEmailAlreadyExists
    | InvalidStatusDescription
    | InvalidUserStatus
    | InvalidBio
    | TriedToSetUserIconWithoutBeingStaff
    | TriedToSetProfilePicOverrideWithoutBeingStaff
    | InvalidLanguageTag
    | TooManyLanguageTags
    | WorldNotFound
    | WorldIsPrivateAndNotOwnedByUser

  /** The body of a user-update request; an absent field is empty. */
  datatype UpdateUserRequest = UpdateUserRequest(
    acceptedTOSVersion: int,
    bio: string,
    bioLinks: seq<string>,
    birthday: string,
    currentPassword: string,
    displayName: string,
    email: string,
    password: string,
    profilePicOverride: string,
    status: string,
    statusDescription: string,
    tags: seq<string>,
    unsubscribe: bool,
    userIcon: string,
    homeLocation: string)

  /**
   * What a check does: decline (false, nil), fail (false, error), or write a new
   * value into its field (true, nil).
   */
  datatype Decision<T> = Skip | Reject(error: UpdateError) | Apply(value: T)
  {
    /** The (bool, error) pair the check returns. */
    function Returned(): (bool, Option<UpdateError>)
    {
      match this
      case Skip => (false, None)
      case Reject(e) => (false, Some(e))
      case Apply(_) => (true, None)
    }

    /** The checked field afterwards, given its value before. */
    function Updated(previous: T): T
    {
      if Apply? then value else previous
    }
  }

  /**
   * The contract every check keeps: it returns true exactly when it writes its field,
   * an error exactly when it refuses, and leaves the field as it was otherwise.
   */
  lemma DecisionOutcome<T>(d: Decision<T>, previous: T)
    ensures d.Returned().0 <==> d.Apply?
    ensures d.Returned().1.Some? <==> d.Reject?
    ensures d.Returned().1.Some? ==> d.Returned().1.value == d.error
    ensures !d.Apply? ==> d.Updated(previous) == previous
    ensures d.Apply? ==> d.Updated(previous) == d.value
  {
  }

  const MaxStatusDescriptionBytes: nat := 32
  const MaxBioBytes: nat := 512
  const MaxLanguageTags: nat := 3

  /** The statuses anyone may set; "offline" is for staff only. */
  const AnyoneStatuses: seq<string> := ["join me", "active", "ask me", "busy"]
  const StaffOnlyStatus: string := "offline"

  /** models.ReleaseStatusPrivate, the column default of a world's release status. */
  const ReleaseStatusPrivate: string := "private"

  const ValidLanguageTags: seq<string> := ["eng", "kor", "rus", "spa", "por", "zho", "deu",
    "jpn", "fra", "swe", "nld", "pol", "dan", "nor", "ita", "tha", "fin", "hun", "ces",
    "tur", "ara", "ron", "vie", "ukr", "ase", "bfi", "dse", "fsl", "kvk"]

  // ---------------------------------------------------------------- email

  /**
   * EmailChecks. passwordMatches stands for u.CheckPassword(currentPassword)
   * succeeding with a match; emailTaken for the uniqueness query ending in
   * anything but "record not found". The e-mail goes to the pending address.
   */
  function EmailDecision(email: string, passwordMatches: bool, emailTaken: bool): (d: Decision<string>)
    ensures email == "" ==> d == Skip
    ensures email != "" && !passwordMatches ==> d == Reject(InvalidCredentials)
    ensures email != "" && passwordMatches && emailTaken ==> d == Reject(UserWithEmailAlreadyExists)
    ensures d.Apply? <==> email != "" && passwordMatches && !emailTaken
    ensures d.Apply? ==> d.value == email
  {
    if email == "" then Skip
    else if !passwordMatches then Reject(InvalidCredentials)
    else if emailTaken then Reject(UserWithEmailAlreadyExists)
    else Apply(email)
  }

  method EmailChecks(r: UpdateUserRequest, u: User, passwordMatches: bool, emailTaken: bool)
    returns (ok: bool, err: Option<UpdateError>)
    modifies u`pendingEmail
    ensures (ok, err) == EmailDecision(r.email, passwordMatches, emailTaken).Returned()
    ensures u.pendingEmail == EmailDecision(r.email, passwordMatches, emailTaken).Updated(old(u.pendingEmail))
  {
    if r.email == "" {
      return false, None;
    }
    if !passwordMatches {
      return false, Some(InvalidCredentials);
    }
    if emailTaken {
      return false, Some(UserWithEmailAlreadyExists);
    }
    u.pendingEmail := r.email;
    return true, None;
  }

  // ---------------------------------------------------------------- status

  /**
   * StatusChecks: the lower-cased status when it is one anyone may set, or
   * "offline" for staff; a non-staff "offline" is refused with the
   * status-description error, anything else with the user-status error.
   */
  function StatusDecision(status: string, staff: bool): (d: Decision<string>)
    ensures status == "" ==> d == Skip
    ensures d.Apply? <==> status != "" && (ToLower(status) in AnyoneStatuses || (ToLower(status) == StaffOnlyStatus && staff))
    ensures d.Apply? ==> d.value == ToLower(status)
    ensures d == Reject(InvalidStatusDescription) <==> status != "" && ToLower(status) == StaffOnlyStatus && !staff
    ensures d == Reject(InvalidUserStatus) <==> status != "" && ToLower(status) !in AnyoneStatuses + [StaffOnlyStatus]
  {
    if status == "" then Skip
    else
      var lowered := ToLower(status);
      if lowered in AnyoneStatuses then Apply(lowered)
      else if lowered == StaffOnlyStatus then (if staff then Apply(lowered) else Reject(InvalidStatusDescription))
      else Reject(InvalidUserStatus)
  }

  /** The status check does not see letter case: a status decides as its lower case does. */
  lemma StatusIgnoresCase(status: string, staff: bool)
    ensures StatusDecision(ToLower(status), staff) == StatusDecision(status, staff)
  {
    ToLowerIdempotent(status);
  }

  method StatusChecks(r: UpdateUserRequest, u: User, staff: bool) returns (ok: bool, err: Option<UpdateError>)
    modifies u`status
    ensures (ok, err) == StatusDecision(r.status, staff).Returned()
    ensures u.status == StatusDecision(r.status, staff).Updated(old(u.status))
  {
    if r.status == "" {
      return false, None;
    }
    var lowered := ToLower(r.status);
    var status: string;
    if lowered == "join me" {
      status := lowered;
    } else if lowered == "active" {
      status := lowered;
    } else if lowered == "ask me" {
      status := lowered;
    } else if lowered == "busy" {
      status := lowered;
    } else if lowered == "offline" {
      if !staff {
        return false, Some(InvalidStatusDescription);
      }
      status := lowered;
    } else {
      return false, Some(InvalidUserStatus);
    }
    u.status := status;
    return true, None;
  }

  // ---------------------------------------------------------------- bounded text fields

  /** A text field limited to maxBytes bytes of UTF-8 (Go's len). */
  function LengthBoundDecision(text: string, maxBytes: nat, error: UpdateError): (d: Decision<string>)
    ensures text == "" ==> d == Skip
    ensures text != "" && Utf8Length(text) > maxBytes ==> d == Reject(error)
    ensures d.Apply? <==> text != "" && Utf8Length(text) <= maxBytes
    ensures d.Apply? ==> d.value == text
  {
    if text == "" then Skip
    else if Utf8Length(text) > maxBytes then Reject(error)
    else Apply(text)
  }

  method StatusDescriptionChecks(r: UpdateUserRequest, u: User) returns (ok: bool, err: Option<UpdateError>)
    modifies u`statusDescription
    ensures (ok, err) == LengthBoundDecision(r.statusDescription, MaxStatusDescriptionBytes, InvalidStatusDescription).Returned()
    ensures u.statusDescription == LengthBoundDecision(r.statusDescription, MaxStatusDescriptionBytes, InvalidStatusDescription).Updated(old(u.statusDescription))
  {
    if r.statusDescription == "" {
      return false, None;
    }
    if Utf8Length(r.statusDescription) > MaxStatusDescriptionBytes {
      return false, Some(InvalidStatusDescription);
    }
    u.statusDescription := r.statusDescription;
    return true, None;
  }

  method BioChecks(r: UpdateUserRequest, u: User) returns (ok: bool, err: Option<UpdateError>)
    modifies u`bio
    ensures (ok, err) == LengthBoundDecision(r.bio, MaxBioBytes, InvalidBio).Returned()
    ensures u.bio == LengthBoundDecision(r.bio, MaxBioBytes, InvalidBio).Updated(old(u.bio))
  {
    if r.bio == "" {
      return false, None;
    }
    if Utf8Length(r.bio) > MaxBioBytes {
      return false, Some(InvalidBio);
    }
    u.bio := r.bio;
    return true, None;
  }

  // ---------------------------------------------------------------- staff-only fields

  /** A field only staff may set. */
  function StaffOnlyDecision(value: string, staff: bool, error: UpdateError): (d: Decision<string>)
    ensures value == "" ==> d == Skip
    ensures value != "" && !staff ==> d == Reject(error)
    ensures d.Apply? <==> value != "" && staff
    ensures d.Apply? ==> d.value == value
  {
    if value == "" then Skip
    else if !staff then Reject(error)
    else Apply(value)
  }

  method UserIconChecks(r: UpdateUserRequest, u: User, staff: bool) returns (ok: bool, err: Option<UpdateError>)
    modifies u`userIcon
    ensures (ok, err) == StaffOnlyDecision(r.userIcon, staff, TriedToSetUserIconWithoutBeingStaff).Returned()
    ensures u.userIcon == StaffOnlyDecision(r.userIcon, staff, TriedToSetUserIconWithoutBeingStaff).Updated(old(u.userIcon))
  {
    if r.userIcon == "" {
      return false, None;
    }
    if !staff {
      return false, Some(TriedToSetUserIconWithoutBeingStaff);
    }
    u.userIcon := r.userIcon;
    return true, None;
  }

  method ProfilePicOverrideChecks(r: UpdateUserRequest, u: User, staff: bool) returns (ok: bool, err: Option<UpdateError>)
    modifies u`profilePicOverride
    ensures (ok, err) == StaffOnlyDecision(r.profilePicOverride, staff, TriedToSetProfilePicOverrideWithoutBeingStaff).Returned()
    ensures u.profilePicOverride == StaffOnlyDecision(r.profilePicOverride, staff, TriedToSetProfilePicOverrideWithoutBeingStaff).Updated(old(u.profilePicOverride))
  {
    if r.profilePicOverride == "" {
      return false, None;
    }
    if !staff {
      return false, Some(TriedToSetProfilePicOverrideWithoutBeingStaff);
    }
    u.profilePicOverride := r.profilePicOverride;
    return true, None;
  }

  // ---------------------------------------------------------------- language tags

  /**
   * isValidLanguageTag as written. Its guard asks whether tag is a prefix of
   * "language_" (the arguments of HasPrefix are the other way round from
   * "tag starts with language_"), then splits tag on '_' and wants two pieces, the
   * second one a known language.
   */
  predicate LanguageTagAccepted(tag: string)
  {
    HasPrefix("language_", tag) && |Split(tag, '_')| == 2 && Split(tag, '_')[1] in ValidLanguageTags
  }

  /**
   * No tag is ever accepted: the only prefix of "language_" that holds a '_' is
   * "language_" itself, whose second piece is empty.
   */
  lemma LanguageTagNeverAccepted(tag: string)
    ensures !LanguageTagAccepted(tag)
  {
    if HasPrefix("language_", tag) {
      if |tag| < 9 {
        assert '_' !in tag by {
          forall k | 0 <= k < |tag| ensures tag[k] != '_' {
            assert tag[k] == "language_"[k];
          }
        }
        SplitWithoutSeparator(tag, '_');
      } else {
        assert tag == "language" + ['_'] + "";
        SplitAtFirstSeparator("language", '_', "");
        assert Split(tag, '_') == ["language", ""];
      }
    }
  }

  /** isValidLanguageTag, with its search over ValidLanguageTags. */
  method IsValidLanguageTag(tag: string) returns (valid: bool)
    ensures valid == LanguageTagAccepted(tag)
  {
    if !HasPrefix("language_", tag) {
      return false;
    }
    var split := Split(tag, '_');
    if |split| != 2 {
      return false;
    }
    var tagPart := split[1];
    for k := 0 to |ValidLanguageTags|
      invariant forall m :: 0 <= m < k ==> ValidLanguageTags[m] != tagPart
    {
      if tagPart == ValidLanguageTags[k] {
        return true;
      }
    }
    return false;
  }

  // ---------------------------------------------------------------- tags

  /** The gate of the first tag loop (a tag failing `!HasPrefix(tag, "language_") && !IsStaff()` is skipped): the tag starts with "language_", or the user is staff. */
  predicate PassesStaffGate(tag: string, staff: bool)
  {
    HasPrefix(tag, "language_") || staff
  }

  /** The language-tag test `HasPrefix("language_", tag)` as written: the tag is a prefix of "language_". */
  predicate IsPrefixOfLanguage(tag: string)
  {
    HasPrefix("language_", tag)
  }

  /** Tags a user keeps whatever the request says. */
  predicate IsProtectedTag(tag: string)
  {
    HasPrefix(tag, "system_") || HasPrefix(tag, "admin_")
  }

  /**
   * The first loop of TagsChecks over the remaining request tags, with the count of
   * language tags so far and the tags kept so far.
   */
  function ScanRequestTags(tags: seq<string>, staff: bool, count: nat, kept: seq<string>): Result<seq<string>, UpdateError>
    decreases |tags|
  {
    if tags == [] then Success(kept)
    else
      var tag := tags[0];
      if !PassesStaffGate(tag, staff) then ScanRequestTags(tags[1..], staff, count, kept)
      else if IsPrefixOfLanguage(tag) then
        if !LanguageTagAccepted(tag) then Failure(InvalidLanguageTag)
        else if count + 1 > MaxLanguageTags then Failure(TooManyLanguageTags)
        else ScanRequestTags(tags[1..], staff, count + 1, kept + [tag])
      else ScanRequestTags(tags[1..], staff, count, kept + [tag])
  }

  /** The request tags that pass the staff gate, in request order. */
  function KeptRequestTags(tags: seq<string>, staff: bool): (kept: seq<string>)
    ensures forall t :: t in kept <==> t in tags && PassesStaffGate(t, staff)
  {
    if tags == [] then []
    else (if PassesStaffGate(tags[0], staff) then [tags[0]] else []) + KeptRequestTags(tags[1..], staff)
  }

  /** The user's system_ and admin_ tags, in their order. */
  function ProtectedTags(tags: seq<string>): (kept: seq<string>)
    ensures forall t :: t in kept <==> t in tags && IsProtectedTag(t)
  {
    if tags == [] then []
    else ProtectedTags(tags[..|tags| - 1]) + (if IsProtectedTag(tags[|tags| - 1]) then [tags[|tags| - 1]] else [])
  }

  /** Some tag that passes the gate is also a prefix of "language_". */
  predicate HasRejectedLanguageTag(tags: seq<string>, staff: bool)
  {
    exists k :: 0 <= k < |tags| && PassesStaffGate(tags[k], staff) && IsPrefixOfLanguage(tags[k])
  }

  /**
   * What the first loop does, as written: it fails with InvalidLanguageTag exactly when
   * a gated tag is a prefix of "language_", never with TooManyLanguageTags, and
   * otherwise keeps the gated tags in order.
   */
  lemma {:induction false} ScanRequestTagsAsWritten(tags: seq<string>, staff: bool, count: nat, kept: seq<string>)
    ensures ScanRequestTags(tags, staff, count, kept)
         == if HasRejectedLanguageTag(tags, staff) then Failure(InvalidLanguageTag)
            else Success(kept + KeptRequestTags(tags, staff))
    decreases |tags|
  {
    if tags == [] {
      assert kept + [] == kept;
    } else {
      var tag, rest := tags[0], tags[1..];
      assert HasRejectedLanguageTag(tags, staff)
        <==> (PassesStaffGate(tag, staff) && IsPrefixOfLanguage(tag)) || HasRejectedLanguageTag(rest, staff)
      by {
        if HasRejectedLanguageTag(rest, staff) {
          var k :| 0 <= k < |rest| && PassesStaffGate(rest[k], staff) && IsPrefixOfLanguage(rest[k]);
          assert tags[k + 1] == rest[k];
        }
        if HasRejectedLanguageTag(tags, staff) && !(PassesStaffGate(tag, staff) && IsPrefixOfLanguage(tag)) {
          var k :| 0 <= k < |tags| && PassesStaffGate(tags[k], staff) && IsPrefixOfLanguage(tags[k]);
          assert k > 0 && rest[k - 1] == tags[k];
        }
      }
      if !PassesStaffGate(tag, staff) {
        assert KeptRequestTags(tags, staff) == [] + KeptRequestTags(rest, staff);
        assert [] + KeptRequestTags(rest, staff) == KeptRequestTags(rest, staff);
        ScanRequestTagsAsWritten(rest, staff, count, kept);
      } else if IsPrefixOfLanguage(tag) {
        LanguageTagNeverAccepted(tag);
      } else {
        ScanRequestTagsAsWritten(rest, staff, count, kept + [tag]);
        assert kept + [tag] + KeptRequestTags(rest, staff) == kept + KeptRequestTags(tags, staff);
      }
    }
  }

  /**
   * TagsChecks: the kept request tags followed by the user's protected tags, unless
   * the loop over the request tags fails.
   */
  function TagsDecision(requestTags: seq<string>, userTags: seq<string>, staff: bool): Decision<seq<string>>
  {
    if |requestTags| == 0 then Skip
    else match ScanRequestTags(requestTags, staff, 0, [])
      case Failure(e) => Reject(e)
      case Success(kept) => Apply(kept + ProtectedTags(userTags))
  }

  /** TagsChecks as written, stated without its loops. */
  lemma TagsDecisionAsWritten(requestTags: seq<string>, userTags: seq<string>, staff: bool)
    ensures TagsDecision(requestTags, userTags, staff)
         == if |requestTags| == 0 then Skip
            else if HasRejectedLanguageTag(requestTags, staff) then Reject(InvalidLanguageTag)
            else Apply(KeptRequestTags(requestTags, staff) + ProtectedTags(userTags))
  {
    ScanRequestTagsAsWritten(requestTags, staff, 0, []);
    assert [] + KeptRequestTags(requestTags, staff) == KeptRequestTags(requestTags, staff);
  }

  /**
   * A successful TagsChecks leaves the user with exactly the gated request tags and
   * the user's own system_ and admin_ tags, the request tags first.
   */
  lemma TagsAppliedMembers(requestTags: seq<string>, userTags: seq<string>, staff: bool)
    requires TagsDecision(requestTags, userTags, staff).Apply?
    ensures var v := TagsDecision(requestTags, userTags, staff).value;
      && v == KeptRequestTags(requestTags, staff) + ProtectedTags(userTags)
      && forall t :: t in v <==> (t in requestTags && PassesStaffGate(t, staff)) || (t in userTags && IsProtectedTag(t))
  {
    TagsDecisionAsWritten(requestTags, userTags, staff);
  }

  /** The three-language-tag limit can never be hit. */
  lemma TooManyLanguageTagsUnreachable(requestTags: seq<string>, userTags: seq<string>, staff: bool)
    ensures TagsDecision(requestTags, userTags, staff) != Reject(TooManyLanguageTags)
  {
    TagsDecisionAsWritten(requestTags, userTags, staff);
  }

  /**
   * For a user who is not staff, the request fails exactly when it holds the bare tag
   * "language_": the only tag that both starts with and is a prefix of "language_".
   */
  lemma NonStaffRejectedExactlyOnBareLanguageTag(tags: seq<string>)
    ensures HasRejectedLanguageTag(tags, false) <==> "language_" in tags
  {
    if "language_" in tags {
      var k :| 0 <= k < |tags| && tags[k] == "language_";
      assert PassesStaffGate(tags[k], false) && IsPrefixOfLanguage(tags[k]);
    }
    if HasRejectedLanguageTag(tags, false) {
      var k :| 0 <= k < |tags| && PassesStaffGate(tags[k], false) && IsPrefixOfLanguage(tags[k]);
      assert "language_" <= tags[k] && tags[k] <= "language_";
      assert |tags[k]| == 9;
      assert tags[k] == "language_";
    }
  }

  /** For staff, every prefix of "language_", the empty tag included, fails the request. */
  lemma StaffRejectedOnPrefixOfLanguage(tags: seq<string>, userTags: seq<string>, k: nat)
    requires k < |tags| && IsPrefixOfLanguage(tags[k])
    ensures TagsDecision(tags, userTags, true) == Reject(InvalidLanguageTag)
  {
    TagsDecisionAsWritten(tags, userTags, true);
  }

  method TagsChecks(r: UpdateUserRequest, u: User, staff: bool) returns (ok: bool, err: Option<UpdateError>)
    modifies u`tags
    ensures (ok, err) == TagsDecision(r.tags, old(u.tags), staff).Returned()
    ensures u.tags == TagsDecision(r.tags, old(u.tags), staff).Updated(old(u.tags))
  {
    if |r.tags| == 0 {
      return false, None;
    }
    var i: nat := 0;
    var tagsThatWillApply: seq<string> := [];
    for j := 0 to |r.tags|
      invariant ScanRequestTags(r.tags, staff, 0, []) == ScanRequestTags(r.tags[j..], staff, i, tagsThatWillApply)
      invariant u.tags == old(u.tags)
    {
      var tag := r.tags[j];
      assert r.tags[j..][1..] == r.tags[j + 1..];
      if !HasPrefix(tag, "language_") && !staff {
        continue;
      } else if HasPrefix("language_", tag) {
        var valid := IsValidLanguageTag(tag);
        if !valid {
          return false, Some(InvalidLanguageTag);
        }
        i := i + 1;
        if i > MaxLanguageTags {
          return false, Some(TooManyLanguageTags);
        }
      }
      tagsThatWillApply := tagsThatWillApply + [tag];
    }
    ghost var kept := tagsThatWillApply;
    for j := 0 to |u.tags|
      invariant tagsThatWillApply == kept + ProtectedTags(u.tags[..j])
    {
      var tag := u.tags[j];
      assert u.tags[..j + 1][..j] == u.tags[..j];
      if HasPrefix(tag, "system_") || HasPrefix(tag, "admin_") {
        tagsThatWillApply := tagsThatWillApply + [tag];
      }
    }
    assert u.tags[..|u.tags|] == u.tags;
    u.tags := tagsThatWillApply;
    return true, None;
  }

  // ---------------------------------------------------------------- home location

  /** The outcome of looking the requested home world up by its ID. */
  datatype WorldFetch =
    | WorldFound(id: string, authorId: string, releaseStatus: string)
    | WorldRecordNotFound
    | WorldQueryFailed

  /**
   * HomeLocationChecks: a missing world is an error, any other failed query quietly
   * declines, and a private world may only be chosen by its author or by staff.
   */
  function HomeLocationDecision(homeLocation: string, fetch: WorldFetch, userId: string, staff: bool): (d: Decision<string>)
    ensures homeLocation == "" ==> d == Skip
    ensures homeLocation != "" && fetch.WorldRecordNotFound? ==> d == Reject(WorldNotFound)
    ensures homeLocation != "" && fetch.WorldQueryFailed? ==> d == Skip
    ensures d == Reject(WorldIsPrivateAndNotOwnedByUser)
        <==> homeLocation != "" && fetch.WorldFound? && fetch.releaseStatus == ReleaseStatusPrivate
             && fetch.authorId != userId && !staff
    ensures d.Apply? <==> homeLocation != "" && fetch.WorldFound?
                          && (fetch.releaseStatus != ReleaseStatusPrivate || fetch.authorId == userId || staff)
    ensures d.Apply? ==> d.value == fetch.id
  {
    if homeLocation == "" then Skip
    else match fetch
      case WorldRecordNotFound => Reject(WorldNotFound)
      case WorldQueryFailed => Skip
      case WorldFound(id, authorId, releaseStatus) =>
        if releaseStatus == ReleaseStatusPrivate && (authorId != userId && !staff) then Reject(WorldIsPrivateAndNotOwnedByUser)
        else Apply(id)
  }

  /** fetch stands for the query of the worlds table by r.homeLocation. */
  method HomeLocationChecks(r: UpdateUserRequest, u: User, fetch: WorldFetch, staff: bool) returns (ok: bool, err: Option<UpdateError>)
    modifies u`homeWorldId
    ensures (ok, err) == HomeLocationDecision(r.homeLocation, fetch, u.id, staff).Returned()
    ensures u.homeWorldId == HomeLocationDecision(r.homeLocation, fetch, u.id, staff).Updated(old(u.homeWorldId))
  {
    if r.homeLocation == "" {
      return false, None;
    }
    match fetch {
      case WorldRecordNotFound =>
        return false, Some(WorldNotFound);
      case WorldQueryFailed =>
        return false, None;
      case WorldFound(id, authorId, releaseStatus) =>
        if releaseStatus == ReleaseStatusPrivate && (authorId != u.id && !staff) {
          return false, Some(WorldIsPrivateAndNotOwnedByUser);
        }
        u.homeWorldId := id;
        return true, None;
    }
  }
}
