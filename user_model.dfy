/** The User schema and the user collection. The schema's setters (lower-case and
    trim) shape what is stored and also the values a query filters on; its
    validators and unique indexes decide what may be stored at all. */
module UserModel {
  import opened Wrappers
  import opened Text
  import Validators
  import Sanitization

  const MinUsernameLength := 3
  const MaxUsernameLength := 30
  /** The bound on the stored password, which is the hash. */
  const MinStoredPasswordLength := 8

  /** A stored user. `createdAt` is an abstract creation stamp; `updatedAt` is not
      modelled. */
  datatype User = User(email: string, username: string, password: string, firstName: string,
                       lastName: string, profileImage: Option<string>, createdAt: nat)

  /** The email path's setters: lower-case, then trim. */
  function CastEmail(s: string): (r: string)
    ensures IsTrimmed(r) && HasNoUpperAscii(r)
    ensures |r| == |Trim(s)|
  {
    Sanitization.TrimLowerNoUpper(s);
    Sanitization.TrimLower(s);
    Trim(ToLower(s))
  }

  /** Lower-casing twice is lower-casing once, so the filter `email.toLowerCase()`
      casts to the same value as `email`. */
  lemma CastEmailOfLower(s: string)
    ensures CastEmail(ToLower(s)) == CastEmail(s)
  {
    LowerIdempotent(s);
  }

  /** A value already lower-cased and trimmed is its own cast. */
  lemma CastEmailCanonical(s: string)
    requires IsTrimmed(s) && HasNoUpperAscii(s)
    ensures CastEmail(s) == s
  {
    forall i | 0 <= i < |s|
      ensures ToLower(s)[i] == s[i]
    {
      assert !('A' <= s[i] <= 'Z');
    }
    assert ToLower(s) == s;
  }

  /** What every stored user satisfies: the email matches the address pattern and
      is lower-case and trimmed; the username is trimmed and 3 to 30 characters;
      the stored password is at least 8 characters; both names are trimmed and
      present. */
  predicate Conforms(u: User) {
    && Validators.ValidateEmail(u.email) && IsTrimmed(u.email) && HasNoUpperAscii(u.email)
    && IsTrimmed(u.username) && MinUsernameLength <= |u.username| <= MaxUsernameLength
    && |u.password| >= MinStoredPasswordLength
    && IsTrimmed(u.firstName) && u.firstName != ""
    && IsTrimmed(u.lastName) && u.lastName != ""
  }

  /** The fields `new User({...})` is given, before setters and validators. */
  datatype UserDraft = UserDraft(email: string, username: string, password: string, firstName: string,
                                 lastName: string)

  /** `new User(draft)`: the document the setters make of a draft, without a
      stamp until it is saved. Whether it may be stored is for the validators
      (Conforms) and the unique indexes. */
  function Cast(d: UserDraft): (u: User)
    ensures u.email == CastEmail(d.email) && u.username == Trim(d.username) && u.password == d.password
    ensures u.firstName == Trim(d.firstName) && u.lastName == Trim(d.lastName)
    ensures u.profileImage == None
  {
    User(CastEmail(d.email), Trim(d.username), d.password, Trim(d.firstName), Trim(d.lastName), None, 0)
  }

  /** The validators accept a cast draft exactly when the email matches the address
      pattern, the trimmed username has 3 to 30 characters, the stored password has
      at least 8, and neither trimmed name is empty. */
  lemma CastConforms(d: UserDraft)
    ensures Conforms(Cast(d)) <==>
      && Validators.ValidateEmail(CastEmail(d.email))
      && MinUsernameLength <= |Trim(d.username)| <= MaxUsernameLength
      && |d.password| >= MinStoredPasswordLength
      && Trim(d.firstName) != "" && Trim(d.lastName) != ""
  {
  }

  /** A user the schema accepts is a fixed point of `new User`: casting its own
      fields again gives back the same user, which the schema accepts again. */
  lemma ConformingUserRecasts(u: User)
    requires Conforms(u)
    ensures var c := Cast(UserDraft(u.email, u.username, u.password, u.firstName, u.lastName));
      c == u.(profileImage := None, createdAt := 0) && Conforms(c)
  {
    CastEmailCanonical(u.email);
  }

  /** `findByIdAndUpdate` of a profile update (firstName, lastName, profileImage)
      with validators on: a name goes through its trim setter and must stay
      present; the image is any string. Every other field keeps its value. None
      when a validator refuses a value. */
  function ApplyProfile(u: User, update: map<string, string>): (r: Option<User>)
    requires Conforms(u)
    ensures r.Some? <==> ProfileAccepted(update)
    ensures r.Some? ==> Conforms(r.value)
    ensures r.Some? ==>
      && r.value.email == u.email && r.value.username == u.username && r.value.password == u.password
      && r.value.createdAt == u.createdAt
      && r.value.firstName == (if "firstName" in update then Trim(update["firstName"]) else u.firstName)
      && r.value.lastName == (if "lastName" in update then Trim(update["lastName"]) else u.lastName)
      && r.value.profileImage == (if "profileImage" in update then Some(update["profileImage"]) else u.profileImage)
  {
    var firstName := if "firstName" in update then Trim(update["firstName"]) else u.firstName;
    var lastName := if "lastName" in update then Trim(update["lastName"]) else u.lastName;
    var profileImage := if "profileImage" in update then Some(update["profileImage"]) else u.profileImage;
    if firstName == "" || lastName == "" then None
    else Some(u.(firstName := firstName, lastName := lastName, profileImage := profileImage))
  }

  /** Whether the validators accept a profile update: no name it sets trims to
      empty. It reads the update alone, since Mongoose validates an update before
      the query is sent. */
  predicate ProfileAccepted(update: map<string, string>) {
    && ("firstName" in update ==> Trim(update["firstName"]) != "")
    && ("lastName" in update ==> Trim(update["lastName"]) != "")
  }

  /** A stored user with its id. */
  datatype Account = Account(id: nat, user: User)

  /** No two users share an email or a username: the unique indexes. */
  predicate Unique(users: map<nat, User>) {
    forall a, b :: a in users && b in users && a != b ==>
      users[a].email != users[b].email && users[a].username != users[b].username
  }

  /** The first user, in id order among ids below `n`, that satisfies `p`. */
  function First(users: map<nat, User>, n: nat, p: User -> bool): (r: Option<nat>)
    ensures r.Some? ==> r.value < n && r.value in users && p(users[r.value])
    ensures r.Some? ==> forall id :: id < r.value && id in users ==> !p(users[id])
    ensures r.None? ==> forall id :: id < n && id in users ==> !p(users[id])
  {
    if n == 0 then None
    else
      match First(users, n - 1, p)
      case Some(id) => Some(id)
      case None => if n - 1 in users && p(users[n - 1]) then Some(n - 1) else None
  }

  /** The user collection. Ids come from a counter that also serves as the
      creation stamp. */
  class UserStore {
    var users: map<nat, User>
    var clock: nat

    predicate Valid()
      reads this
    {
      && Stamped(users, clock)
      && Unique(users)
    }

    constructor()
      ensures Valid() && users == map[] && clock == 0
    {
      users := map[];
      clock := 0;
    }

    /** `findOne(filter)`: the first user, in natural order, the filter selects. */
    function FindOne(p: User -> bool): (r: Option<Account>)
      reads this
      ensures r.Some? ==> r.value.id in users && users[r.value.id] == r.value.user && p(r.value.user)
      ensures r.None? ==> forall id :: id in users && id < clock ==> !p(users[id])
    {
      match First(users, clock, p)
      case None => None
      case Some(id) => Some(Account(id, users[id]))
    }

    /** `findById(id)`. */
    function FindById(id: nat): (r: Option<User>)
      reads this
      ensures r.Some? <==> id in users
      ensures r.Some? ==> r.value == users[id]
    {
      if id in users then Some(users[id]) else None
    }

    /** `save()` of a new document: stored, stamped with the counter, under a fresh
      id when the validators accept it and neither its email nor its username is
      taken; nothing changes otherwise. */
    method Insert(doc: User) returns (r: Option<Account>)
      requires Valid()
      modifies this
      ensures Valid()
      ensures r.Some? <==> Conforms(doc) && Available(old(users), doc)
      ensures r.Some? ==> r.value == Account(old(clock), doc.(createdAt := old(clock)))
      ensures r.Some? ==> users == old(users)[old(clock) := r.value.user] && clock == old(clock) + 1
      ensures r.None? ==> users == old(users) && clock == old(clock)
    {
      if !Conforms(doc) || !Available(users, doc) {
        return None;
      }
      var id := clock;
      var stamped := doc.(createdAt := id);
      r := Some(Account(id, stamped));
      AddKeepsUnique(users, id, stamped);
      AddKeepsStamped(users, id, stamped);
      users, clock := users[id := stamped], id + 1;
    }

    /** `findByIdAndUpdate(id, update, {runValidators: true})`: the update is
      validated first, so a refused update is an error whether or not the user
      exists; an accepted one gives Ok(None) when there is no such user. */
    method FindByIdAndUpdate(id: nat, update: map<string, string>) returns (r: Result<Option<User>, string>)
      requires Valid()
      requires update.Keys <= {"firstName", "lastName", "profileImage"}
      modifies this
      ensures Valid()
      ensures clock == old(clock)
      ensures !ProfileAccepted(update) ==> r.Err? && users == old(users)
      ensures ProfileAccepted(update) && id !in old(users) ==> r == Ok(None) && users == old(users)
      ensures ProfileAccepted(update) && id in old(users) ==>
        && ApplyProfile(old(users)[id], update).Some?
        && r == Ok(Some(ApplyProfile(old(users)[id], update).value))
        && users == old(users)[id := ApplyProfile(old(users)[id], update).value]
    {
      if !ProfileAccepted(update) {
        return Err("User validation failed");
      }
      if id !in users {
        return Ok(None);
      }
      var updated := ApplyProfile(users[id], update);
      Replace(id, updated.value);
      r := Ok(Some(updated.value));
    }

    /** Writes back a stored user whose email, username and stamp are unchanged and
      which the validators accept. */
    method Replace(id: nat, u: User)
      requires Valid() && id in users
      requires Conforms(u) && u.email == users[id].email && u.username == users[id].username
      requires u.createdAt == users[id].createdAt
      modifies this
      ensures Valid() && users == old(users)[id := u] && clock == old(clock)
    {
      ReplaceKeepsUnique(users, id, u);
      ReplaceKeepsStamped(users, clock, id, u);
      users := users[id := u];
    }
  }

  /** Every stored user conforms, and its id is below the counter and is its
      creation stamp. */
  predicate Stamped(users: map<nat, User>, clock: nat) {
    forall id :: id in users ==> id < clock && users[id].createdAt == id && Conforms(users[id])
  }

  /** Storing a conforming user under the counter and advancing it keeps the
      stamps. */
  lemma AddKeepsStamped(users: map<nat, User>, clock: nat, u: User)
    requires Stamped(users, clock) && Conforms(u) && u.createdAt == clock
    ensures Stamped(users[clock := u], clock + 1)
  {
  }

  /** Replacing a stored user by a conforming one with the same stamp keeps the
      stamps. */
  lemma ReplaceKeepsStamped(users: map<nat, User>, clock: nat, id: nat, u: User)
    requires Stamped(users, clock) && id in users && Conforms(u) && u.createdAt == users[id].createdAt
    ensures Stamped(users[id := u], clock)
  {
  }

  /** Neither the user's email nor its username is taken. */
  predicate Available(users: map<nat, User>, u: User) {
    forall id :: id in users ==> users[id].email != u.email && users[id].username != u.username
  }

  /** Adding an available user under a new id keeps emails and usernames unique. */
  lemma AddKeepsUnique(users: map<nat, User>, id: nat, u: User)
    requires Unique(users) && Available(users, u) && id !in users
    ensures Unique(users[id := u])
  {
  }

  /** Replacing a user by one with the same email and username keeps them unique. */
  lemma ReplaceKeepsUnique(users: map<nat, User>, id: nat, u: User)
    requires Unique(users) && id in users
    requires u.email == users[id].email && u.username == users[id].username
    ensures Unique(users[id := u])
  {
  }
}
