/** The caller's own profile: read it, or change its first name, last name or
    image. */
module ProfileController {
  import opened Wrappers
  import opened Text
  import opened Json
  import opened Constants
  import opened ErrorHandler
  import opened UserModel
  import opened AuthMiddleware

  const UserNotFound := AppError(NOT_FOUND, USER_NOT_FOUND, "User not found")
  const NoValidFields := AppError(BAD_REQUEST, VALIDATION_ERROR, "No valid fields to update")

  /** A profile as the responses carry it: the stored user without its password. */
  datatype Profile = Profile(id: nat, email: string, username: string, firstName: string, lastName: string,
                             profileImage: Option<string>, createdAt: nat)

  function ProfileOf(id: nat, u: User): (p: Profile)
    ensures p.id == id && p.email == u.email && p.username == u.username
    ensures p.firstName == u.firstName && p.lastName == u.lastName
    ensures p.profileImage == u.profileImage && p.createdAt == u.createdAt
  {
    Profile(id, u.email, u.username, u.firstName, u.lastName, u.profileImage, u.createdAt)
  }

  // ---------------------------------------------------------------------------
  // getUserProfile

  /** `getUserProfile`: the caller's own record, without the password. */
  function GetUserProfile(store: UserStore, caller: Option<Claims>): (r: Result<Profile, Raised>)
    reads store
    ensures caller.None? ==> r == Err(App(NotAuthenticated))
    ensures caller.Some? && caller.value.userId !in store.users ==> r == Err(App(UserNotFound))
    ensures caller.Some? && caller.value.userId in store.users ==>
      r == Ok(ProfileOf(caller.value.userId, store.users[caller.value.userId]))
  {
    if caller.None? then Err(App(NotAuthenticated))
    else
      match store.FindById(caller.value.userId)
      case None => Err(App(UserNotFound))
      case Some(user) => Ok(ProfileOf(caller.value.userId, user))
  }

  // ---------------------------------------------------------------------------
  // updateUserProfile

  /** One name step of the update builder: the name is added, trimmed, when it is a
      string with something besides whitespace. */
  function WithName(u: map<string, string>, body: Payload, key: string): (r: map<string, string>)
    ensures key in r <==> key in u || (Get(body, key).Str? && Trim(Get(body, key).s) != "")
    ensures Get(body, key).Str? && Trim(Get(body, key).s) != "" ==> r[key] == Trim(Get(body, key).s)
    ensures forall k :: k != key ==> (k in r <==> k in u) && (k in r ==> r[k] == u[k])
  {
    var v := Get(body, key);
    if v.Str? && Trim(v.s) != "" then u[key := Trim(v.s)] else u
  }

  /** The image step: added whenever it is a string, "" included. */
  function WithImage(u: map<string, string>, body: Payload): (r: map<string, string>)
    ensures "profileImage" in r <==> "profileImage" in u || Get(body, "profileImage").Str?
    ensures Get(body, "profileImage").Str? ==> r["profileImage"] == Get(body, "profileImage").s
    ensures forall k :: k != "profileImage" ==> (k in r <==> k in u) && (k in r ==> r[k] == u[k])
  {
    var v := Get(body, "profileImage");
    if v.Str? then u["profileImage" := v.s] else u
  }

  /** The update `updateUserProfile` sends. */
  function ProfileUpdate(body: Payload): map<string, string> {
    WithImage(WithName(WithName(map[], body, "firstName"), body, "lastName"), body)
  }

  /** The update names at most the three profile fields: each name exactly when it
      is a string with something besides whitespace, stored trimmed; the image
      exactly when it is a string, stored as given. */
  lemma ProfileUpdateFields(body: Payload)
    ensures var u := ProfileUpdate(body);
      && u.Keys <= {"firstName", "lastName", "profileImage"}
      && ("firstName" in u <==> Get(body, "firstName").Str? && Trim(Get(body, "firstName").s) != "")
      && ("firstName" in u ==> u["firstName"] == Trim(Get(body, "firstName").s))
      && ("lastName" in u <==> Get(body, "lastName").Str? && Trim(Get(body, "lastName").s) != "")
      && ("lastName" in u ==> u["lastName"] == Trim(Get(body, "lastName").s))
      && ("profileImage" in u <==> Get(body, "profileImage").Str?)
      && ("profileImage" in u ==> u["profileImage"] == Get(body, "profileImage").s)
  {
  }

  /** The builder of `updateUserProfile`, which collects the update key by key. */
  method BuildProfileUpdate(body: Payload) returns (updateData: map<string, string>)
    ensures updateData == ProfileUpdate(body)
  {
    var firstName, lastName, profileImage := Get(body, "firstName"), Get(body, "lastName"), Get(body, "profileImage");
    updateData := map[];
    if firstName.Str? && Trim(firstName.s) != "" {
      updateData := updateData["firstName" := Trim(firstName.s)];
    }
    if lastName.Str? && Trim(lastName.s) != "" {
      updateData := updateData["lastName" := Trim(lastName.s)];
    }
    if profileImage.Str? {
      updateData := updateData["profileImage" := profileImage.s];
    }
  }

  /** The schema never refuses an update the builder made, whichever user it is
      applied to: its names are already trimmed and present. */
  lemma ProfileUpdateAccepted(body: Payload)
    ensures ProfileAccepted(ProfileUpdate(body))
    ensures forall u :: Conforms(u) ==> ApplyProfile(u, ProfileUpdate(body)).Some?
  {
    ProfileUpdateFields(body);
    var firstName, lastName := Get(body, "firstName"), Get(body, "lastName");
    if firstName.Str? {
      TrimIdempotent(firstName.s);
    }
    if lastName.Str? {
      TrimIdempotent(lastName.s);
    }
  }

  /** `updateUserProfile`. An empty update is refused before the user is looked up;
      otherwise only the caller's first name, last name and image can change. */
  method UpdateUserProfile(store: UserStore, caller: Option<Claims>, body: Payload) returns (r: Result<Profile, Raised>)
    requires store.Valid()
    modifies store
    ensures store.Valid()
    ensures store.clock == old(store.clock)
    ensures caller.None? ==> r == Err(App(NotAuthenticated)) && unchanged(store)
    ensures caller.Some? && ProfileUpdate(body) == map[] ==> r == Err(App(NoValidFields)) && unchanged(store)
    ensures caller.Some? && ProfileUpdate(body) != map[] && caller.value.userId !in old(store.users) ==>
      r == Err(App(UserNotFound)) && store.users == old(store.users)
    ensures caller.Some? && ProfileUpdate(body) != map[] && caller.value.userId in old(store.users) ==>
      var id := caller.value.userId;
      var updated := ApplyProfile(old(store.users)[id], ProfileUpdate(body));
      && updated.Some?
      && r == Ok(ProfileOf(id, updated.value))
      && store.users == old(store.users)[id := updated.value]
  {
    if caller.None? {
      return Err(App(NotAuthenticated));
    }
    var updateData := BuildProfileUpdate(body);
    if |updateData| == 0 {
      return Err(App(NoValidFields));
    }
    ProfileUpdateFields(body);
    ProfileUpdateAccepted(body);
    var user := store.FindByIdAndUpdate(caller.value.userId, updateData);
    match user
    case Err(reason) => r := Err(Unexpected(reason));
    case Ok(None) => r := Err(App(UserNotFound));
    case Ok(Some(u)) => r := Ok(ProfileOf(caller.value.userId, u));
  }

  /** A profile update leaves the email, the username and the password as they were,
      and changes no other user. */
  lemma ProfileUpdateKeepsAccount(before: map<nat, User>, id: nat, body: Payload)
    requires id in before && Conforms(before[id])
    ensures var updated := ApplyProfile(before[id], ProfileUpdate(body));
      updated.Some? ==>
        var after := before[id := updated.value];
        && after[id].email == before[id].email && after[id].username == before[id].username
        && after[id].password == before[id].password
        && forall other :: other in before && other != id ==> other in after && after[other] == before[other]
  {
  }
}
