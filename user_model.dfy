/** The User schema: length bounds on the handle, password and bio, the
    normalised e-mail, the privacy enums with their defaults, and the id
    lists a user carries. */
module UserModel {
  import opened Common
  import opened Text

  const MinUsernameLength: nat := 3
  const MaxUsernameLength: nat := 30
  const MinPasswordLength: nat := 6
  const MaxBioLength: nat := 500

  /** `profileVisibility` and `postVisibility`: 'public', 'followers' or 'private'. */
  datatype Visibility = Public | FollowersOnly | Private

  /** `contactPermission`: 'everyone', 'followers' or 'none'. */
  datatype ContactPermission = Everyone | FollowersContact | NoContact

  datatype PrivacySettings = PrivacySettings(
    profileVisibility: Visibility,
    postVisibility: Visibility,
    contactPermission: ContactPermission)

  const DefaultPrivacy := PrivacySettings(Public, Public, Everyone)

  /** The `enum` check on the two visibility settings. */
  function ParseVisibility(s: string): (r: Option<Visibility>)
    ensures r.Some? <==> s == "public" || s == "followers" || s == "private"
  {
    if s == "public" then Some(Public)
    else if s == "followers" then Some(FollowersOnly)
    else if s == "private" then Some(Private)
    else None
  }

  /** The `enum` check on the contact permission. */
  function ParseContactPermission(s: string): (r: Option<ContactPermission>)
    ensures r.Some? <==> s == "everyone" || s == "followers" || s == "none"
  {
    if s == "everyone" then Some(Everyone)
    else if s == "followers" then Some(FollowersContact)
    else if s == "none" then Some(NoContact)
    else None
  }

  /** A stored user. `followers` and `following` are the two halves of the
      follow relation; `groups` references groups, `bookmarks` posts. */
  datatype User = User(
    id: Id,
    username: string,
    email: string,
    password: string,
    bio: string,
    profilePicture: string,
    followers: seq<Id>,
    following: seq<Id>,
    groups: seq<Id>,
    blockedUsers: seq<Id>,
    bookmarks: seq<Id>,
    privacy: PrivacySettings,
    createdAt: Time)

  /** The fields handed to `new User({...})`. */
  datatype UserDraft = UserDraft(
    username: Option<string>,
    email: Option<string>,
    password: Option<string>,
    bio: Option<string>,
    profilePicture: Option<string>)

  datatype ValidationError =
    | UsernameRequired
    | UsernameTooShort
    | UsernameTooLong
    | EmailRequired
    | PasswordRequired
    | PasswordTooShort
    | BioTooLong

  /** The `trim` and `lowercase` setters on the e-mail. */
  function NormalizeEmail(s: string): string {
    ToLower(Trim(s))
  }

  /** `maxlength` on the bio, counted in UTF-16 code units. */
  predicate BioFits(bio: string) {
    Utf16Length(bio) <= MaxBioLength
  }

  /** The per-document constraints every stored user meets. */
  predicate ValidUser(u: User) {
    && Trimmed(u.username)
    && MinUsernameLength <= Utf16Length(u.username) <= MaxUsernameLength
    && Trimmed(u.email) && IsLowerCase(u.email) && |u.email| > 0
    && Utf16Length(u.password) >= MinPasswordLength
    && BioFits(u.bio)
  }

  /** A normalised e-mail is trimmed and lower-case. */
  lemma {:induction false} NormalizeEmailShape(s: string)
    ensures Trimmed(NormalizeEmail(s)) && IsLowerCase(NormalizeEmail(s))
  {
    ToLowerKeepsTrimmed(Trim(s));
  }

  /** A trimmed, lower-case e-mail is left as it is by the setters. */
  lemma NormalizeEmailKeepsNormal(e: string)
    requires Trimmed(e) && IsLowerCase(e)
    ensures NormalizeEmail(e) == e
  {
    TrimOfTrimmed(e);
    assert ToLower(e) == e;
  }

  /** Trimming and lower-casing again changes nothing. */
  lemma NormalizeEmailIdempotent(s: string)
    ensures NormalizeEmail(NormalizeEmail(s)) == NormalizeEmail(s)
  {
    NormalizeEmailShape(s);
    NormalizeEmailKeepsNormal(NormalizeEmail(s));
  }

  /** `new User(draft)` followed by `save()`: the setters normalise the
      handle and the e-mail, the defaults fill bio, picture, id lists and
      privacy settings, and the validators check presence and lengths in
      declaration order. Lengths are `String.length`, in UTF-16 code units. */
  function NewUser(id: Id, draft: UserDraft, now: Time): (r: Checked<User, ValidationError>)
    ensures r.Saved? <==>
      && draft.username.Some? && MinUsernameLength <= Utf16Length(Trim(draft.username.value)) <= MaxUsernameLength
      && draft.email.Some? && |NormalizeEmail(draft.email.value)| > 0
      && draft.password.Some? && Utf16Length(draft.password.value) >= MinPasswordLength
      && (draft.bio.None? || BioFits(draft.bio.value))
    ensures r.Saved? ==> ValidUser(r.record)
    ensures r.Saved? ==>
      && r.record.id == id
      && r.record.username == Trim(draft.username.value)
      && r.record.email == NormalizeEmail(draft.email.value)
      && r.record.password == draft.password.value
      && r.record.bio == (if draft.bio.None? then "" else draft.bio.value)
      && r.record.profilePicture == (if draft.profilePicture.None? then "" else draft.profilePicture.value)
      && r.record.followers == [] && r.record.following == [] && r.record.groups == []
      && r.record.blockedUsers == [] && r.record.bookmarks == []
      && r.record.privacy == DefaultPrivacy
  {
    var username := if draft.username.Some? then Trim(draft.username.value) else "";
    var email := if draft.email.Some? then NormalizeEmail(draft.email.value) else "";
    var bio := if draft.bio.Some? then draft.bio.value else "";
    if draft.username.None? || |username| == 0 then Invalid(UsernameRequired)
    else if Utf16Length(username) < MinUsernameLength then Invalid(UsernameTooShort)
    else if Utf16Length(username) > MaxUsernameLength then Invalid(UsernameTooLong)
    else if |email| == 0 then Invalid(EmailRequired)
    else if draft.password.None? || |draft.password.value| == 0 then Invalid(PasswordRequired)
    else if Utf16Length(draft.password.value) < MinPasswordLength then Invalid(PasswordTooShort)
    else if !BioFits(bio) then Invalid(BioTooLong)
    else
      NormalizeEmailShape(draft.email.value);
      Saved(User(id, username, email, draft.password.value, bio,
                    if draft.profilePicture.Some? then draft.profilePicture.value else "",
                    [], [], [], [], [], DefaultPrivacy, now))
  }

  /** Sixteen characters outside the Basic Multilingual Plane fit the
      handle's 3 to 30 characters but are 32 UTF-16 units, so the handle is
      refused as too long. */
  lemma AstralUsernameTooLong(id: Id, name: string, draft: UserDraft, now: Time)
    requires |name| == 16 && forall i :: 0 <= i < |name| ==> name[i] as int >= 0x1_0000
    requires draft.username == Some(name)
    ensures NewUser(id, draft, now) == Invalid(UsernameTooLong)
  {
    assert !IsWhitespace(name[0]) && !IsWhitespace(name[|name| - 1]);
    TrimOfTrimmed(name);
    Utf16LengthOfAstral(name);
  }

  /** The `unique` indexes on `username` and `email`, over a whole
      collection. */
  predicate UniqueHandles(users: seq<User>) {
    forall i, j :: 0 <= i < j < |users| ==>
      users[i].username != users[j].username && users[i].email != users[j].email
  }
}
