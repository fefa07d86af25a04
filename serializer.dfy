/**
 * The user serializers (app/house/serializer.py): UserProfileSerializer.update, which
 * keeps each of five fields unless a new value was validated, and RegisterSerializer,
 * its field rules and create, which makes a user and its one profile.
 */
module Serializer {
  import opened Wrappers
  import opened Text

  /** The UserProfile row of a user (read-only in this serializer); times are epoch seconds. */
  datatype Profile = Profile(profileImg: Option<string>, role: string, updatedAt: int)

  /**
   * A user as the profile views see it: the five serializer fields, the stored password
   * hash and the profile, None when the user has none.
   */
  datatype UserRecord = UserRecord(
    username: string,
    email: string,
    firstName: string,
    lastName: string,
    isActive: bool,
    password: string,
    profile: Option<Profile>)

  /** validated_data of UserProfileSerializer: a field is Some exactly when its key is present. */
  datatype Changes = Changes(
    username: Option<string>,
    email: Option<string>,
    firstName: Option<string>,
    lastName: Option<string>,
    isActive: Option<bool>)

  const NoChanges := Changes(None, None, None, None, None)

  /**
   * What update leaves in the instance: for each field the validated value when its
   * key is present, else the old value; the password and the nested profile are not
   * serializer-writable and stay as they were.
   */
  function Merge(u: UserRecord, c: Changes): (r: UserRecord)
    ensures r.username == (if c.username.Some? then c.username.value else u.username)
    ensures r.email == (if c.email.Some? then c.email.value else u.email)
    ensures r.firstName == (if c.firstName.Some? then c.firstName.value else u.firstName)
    ensures r.lastName == (if c.lastName.Some? then c.lastName.value else u.lastName)
    ensures r.isActive == (if c.isActive.Some? then c.isActive.value else u.isActive)
    ensures r.password == u.password && r.profile == u.profile
  {
    u.(username := c.username.GetOr(u.username),
       email := c.email.GetOr(u.email),
       firstName := c.firstName.GetOr(u.firstName),
       lastName := c.lastName.GetOr(u.lastName),
       isActive := c.isActive.GetOr(u.isActive))
  }

  /** An update with empty validated_data leaves the instance field for field unchanged. */
  lemma MergeNothing(u: UserRecord)
    ensures Merge(u, NoChanges) == u
  {
  }

  /** The same update applied twice is the update applied once. */
  lemma MergeIdempotent(u: UserRecord, c: Changes)
    ensures Merge(Merge(u, c), c) == Merge(u, c)
  {
  }

  /** The later update's present keys win over the earlier one's. */
  function Overlay(first: Changes, second: Changes): Changes {
    Changes(
      if second.username.Some? then second.username else first.username,
      if second.email.Some? then second.email else first.email,
      if second.firstName.Some? then second.firstName else first.firstName,
      if second.lastName.Some? then second.lastName else first.lastName,
      if second.isActive.Some? then second.isActive else first.isActive)
  }

  /** Two updates in a row are one update with the overlaid data. */
  lemma MergeComposes(u: UserRecord, first: Changes, second: Changes)
    ensures Merge(Merge(u, first), second) == Merge(u, Overlay(first, second))
  {
  }

  /** A user instance, whose fields update and set_password assign in place. */
  class User {
    var username: string
    var email: string
    var firstName: string
    var lastName: string
    var isActive: bool
    var password: string
    var profile: Option<Profile>

    constructor (r: UserRecord)
      ensures Record() == r
    {
      username, email, firstName, lastName := r.username, r.email, r.firstName, r.lastName;
      isActive, password, profile := r.isActive, r.password, r.profile;
    }

    function Record(): UserRecord
      reads this
    {
      UserRecord(username, email, firstName, lastName, isActive, password, profile)
    }

    /** UserProfileSerializer.update: the five assignments, then save. */
    method Update(validated: Changes)
      modifies this
      ensures Record() == Merge(old(Record()), validated)
    {
      username := validated.username.GetOr(username);
      email := validated.email.GetOr(email);
      firstName := validated.firstName.GetOr(firstName);
      lastName := validated.lastName.GetOr(lastName);
      isActive := validated.isActive.GetOr(isActive);
    }

    /** set_password: stores hash(raw); every other field is kept. */
    method SetPassword(raw: string, hash: string -> string)
      modifies this
      ensures Record() == old(Record()).(password := hash(raw))
    {
      password := hash(raw);
    }
  }

  // ---------------------------------------------------------------------------
  // RegisterSerializer
  // ---------------------------------------------------------------------------

  const MinPasswordLength := 8

  datatype RegisterField = UsernameField | PasswordField | EmailField

  datatype FieldError =
    | Required(field: RegisterField)
    | Blank(field: RegisterField)
    | NullCharacters(field: RegisterField)
    | PasswordTooShort
    | UsernameTaken
    | InvalidEmail

  /** The submitted data; a field is None when its key is missing. */
  datatype RegisterInput = RegisterInput(username: Option<string>, password: Option<string>, email: Option<string>)

  /** validated_data: email is None when the key was not submitted. */
  datatype Registration = Registration(username: string, password: string, email: Option<string>)

  /**
   * The errors of a required CharField that does not allow blanks: missing, or empty
   * after stripping whitespace.
   */
  function PresenceErrors(field: RegisterField, value: Option<string>): (r: set<FieldError>)
    ensures r == {} <==> value.Some? && PyStrip(value.value) != ""
  {
    if value.None? then {Required(field)}
    else if PyStrip(value.value) == "" then {Blank(field)}
    else {}
  }

  /** The NUL character, which every CharField refuses. */
  const Nul: char := 0 as char

  /** Present and not blank after stripping: the value the field's validators see. */
  predicate Filled(value: Option<string>) {
    value.Some? && PyStrip(value.value) != ""
  }

  /** The field an error is reported under. */
  function ErrorField(e: FieldError): RegisterField {
    match e
    case Required(f) => f
    case Blank(f) => f
    case NullCharacters(f) => f
    case PasswordTooShort => PasswordField
    case UsernameTaken => UsernameField
    case InvalidEmail => EmailField
  }

  /** The username field: present and not blank, then not already taken and free of NUL. */
  function UsernameErrors(value: Option<string>, existing: set<string>): (r: set<FieldError>)
    ensures forall e | e in r :: ErrorField(e) == UsernameField
    ensures r == {} <==> Filled(value) && PyStrip(value.value) !in existing && Nul !in PyStrip(value.value)
    ensures Required(UsernameField) in r <==> value.None?
    ensures UsernameTaken in r <==> Filled(value) && PyStrip(value.value) in existing
    ensures NullCharacters(UsernameField) in r <==> Filled(value) && Nul in PyStrip(value.value)
  {
    if !Filled(value) then PresenceErrors(UsernameField, value)
    else
      (if PyStrip(value.value) in existing then {UsernameTaken} else {})
      + (if Nul in PyStrip(value.value) then {NullCharacters(UsernameField)} else {})
  }

  /** The password field: present and not blank, then at least 8 characters and free of NUL. */
  function PasswordErrors(value: Option<string>): (r: set<FieldError>)
    ensures forall e | e in r :: ErrorField(e) == PasswordField
    ensures r == {} <==> Filled(value) && |PyStrip(value.value)| >= MinPasswordLength && Nul !in PyStrip(value.value)
    ensures Required(PasswordField) in r <==> value.None?
    ensures PasswordTooShort in r <==> Filled(value) && |PyStrip(value.value)| < MinPasswordLength
    ensures NullCharacters(PasswordField) in r <==> Filled(value) && Nul in PyStrip(value.value)
  {
    if !Filled(value) then PresenceErrors(PasswordField, value)
    else
      (if |PyStrip(value.value)| < MinPasswordLength then {PasswordTooShort} else {})
      + (if Nul in PyStrip(value.value) then {NullCharacters(PasswordField)} else {})
  }

  /** The optional email field: nothing when missing or blank, else free of NUL and a valid address. */
  function EmailErrors(value: Option<string>, isEmail: string -> bool): (r: set<FieldError>)
    ensures forall e | e in r :: ErrorField(e) == EmailField
    ensures r == {} <==> !Filled(value) || (Nul !in PyStrip(value.value) && isEmail(PyStrip(value.value)))
    ensures InvalidEmail in r <==> Filled(value) && !isEmail(PyStrip(value.value))
    ensures NullCharacters(EmailField) in r <==> Filled(value) && Nul in PyStrip(value.value)
    ensures Required(EmailField) !in r && Blank(EmailField) !in r
  {
    if !Filled(value) then {}
    else
      (if Nul in PyStrip(value.value) then {NullCharacters(EmailField)} else {})
      + (if isEmail(PyStrip(value.value)) then {} else {InvalidEmail})
  }

  /**
   * The field errors of RegisterSerializer.is_valid. Each CharField strips surrounding
   * whitespace, then runs its validators and reports every one that fails (the check
   * for surrogate characters never fails here, since a string holds none):
   * username must not already exist, password must have at least 8 characters, email
   * may be missing or blank and otherwise must satisfy the email validator isEmail, and
   * none of the three may hold a NUL character.
   */
  function RegisterErrors(input: RegisterInput, existing: set<string>, isEmail: string -> bool): (r: set<FieldError>)
    ensures r == {} <==>
      && Filled(input.username) && PyStrip(input.username.value) !in existing && Nul !in PyStrip(input.username.value)
      && Filled(input.password) && |PyStrip(input.password.value)| >= MinPasswordLength && Nul !in PyStrip(input.password.value)
      && (!Filled(input.email) || (Nul !in PyStrip(input.email.value) && isEmail(PyStrip(input.email.value))))
  {
    UsernameErrors(input.username, existing) + PasswordErrors(input.password) + EmailErrors(input.email, isEmail)
  }

  /** Each field's errors are reported under that field, next to the other fields' errors. */
  lemma ErrorsByField(input: RegisterInput, existing: set<string>, isEmail: string -> bool, e: FieldError)
    ensures ErrorField(e) == UsernameField ==> (e in RegisterErrors(input, existing, isEmail) <==> e in UsernameErrors(input.username, existing))
    ensures ErrorField(e) == PasswordField ==> (e in RegisterErrors(input, existing, isEmail) <==> e in PasswordErrors(input.password))
    ensures ErrorField(e) == EmailField ==> (e in RegisterErrors(input, existing, isEmail) <==> e in EmailErrors(input.email, isEmail))
  {
  }

  /** The email validated_data holds: absent, '' for a blank one, else the stripped text. */
  function ValidatedEmail(email: Option<string>): Option<string> {
    if email.None? then None
    else if PyStrip(email.value) == "" then Some("")
    else Some(PyStrip(email.value))
  }

  /** RegisterSerializer.is_valid: the validated data, or every field error found. */
  function ValidateRegistration(input: RegisterInput, existing: set<string>, isEmail: string -> bool)
    : (r: Result<Registration, set<FieldError>>)
    ensures r.Ok? <==> RegisterErrors(input, existing, isEmail) == {}
    ensures r.Err? ==> r.error == RegisterErrors(input, existing, isEmail)
    ensures r.Ok? ==> input.username.Some? && input.password.Some?
    ensures r.Ok? ==> r.value == Registration(PyStrip(input.username.value), PyStrip(input.password.value), ValidatedEmail(input.email))
    ensures r.Ok? ==> r.value.username !in existing && r.value.username != "" && Nul !in r.value.username
    ensures r.Ok? ==> |r.value.password| >= MinPasswordLength && Nul !in r.value.password
    ensures input.password.Some? && |PyStrip(input.password.value)| < MinPasswordLength ==> r.Err?
    ensures input.username.Some? && PyStrip(input.username.value) in existing ==> r.Err?
  {
    var errors := RegisterErrors(input, existing, isEmail);
    if errors != {} then Err(errors)
    else
      Ok(Registration(PyStrip(input.username.value), PyStrip(input.password.value), ValidatedEmail(input.email)))
  }

  /** A password shorter than 8 characters is refused whatever the other fields are. */
  lemma ShortPasswordRefused(input: RegisterInput, existing: set<string>, isEmail: string -> bool)
    requires input.password.Some? && |input.password.value| < MinPasswordLength
    ensures PasswordTooShort in RegisterErrors(input, existing, isEmail)
         || Blank(PasswordField) in RegisterErrors(input, existing, isEmail)
  {
    var t := PyStrip(input.password.value);
    assert |t| <= |TrimStart(input.password.value, PyWhitespace)| <= |input.password.value|;
  }

  /** A user row as create_user stores it. */
  datatype StoredUser = StoredUser(username: string, email: string, password: string)

  /** The user table (ids are positions) and the profile table keyed by user id. */
  datatype UserDb = UserDb(users: seq<StoredUser>, profiles: map<nat, Profile>)

  /** The usernames stored, which the unique username column keeps distinct. */
  function Usernames(db: UserDb): set<string> {
    set u | u in db.users :: u.username
  }

  /** The database refuses a second row with a stored username (an IntegrityError). */
  datatype CreateError = DuplicateUsername

  /**
   * RegisterSerializer.create: create_user with email defaulting to '' (the username
   * and email go through the manager's normalisers, the password through the hasher),
   * then get_or_create of the user's profile, keyed by the user's id. The insert fails
   * when the normalised username is already stored, even though the uniqueness
   * validator passed the name as submitted.
   */
  function Create(db: UserDb, reg: Registration, normalizeUsername: string -> string,
                  normalizeEmail: string -> string, hash: string -> string, now: int)
    : (r: Result<(UserDb, nat), CreateError>)
    ensures r.Err? <==> normalizeUsername(reg.username) in Usernames(db)
    ensures r.Ok? ==>
      var (db', id) := r.value;
      && id == |db.users| && |db'.users| == |db.users| + 1 && db'.users[..id] == db.users
      && db'.users[id] == StoredUser(normalizeUsername(reg.username), normalizeEmail(reg.email.GetOr("")), hash(reg.password))
      && db'.profiles.Keys == db.profiles.Keys + {id}
      && (forall k | k in db.profiles :: db'.profiles[k] == db.profiles[k])
  {
    var user := StoredUser(normalizeUsername(reg.username), normalizeEmail(reg.email.GetOr("")), hash(reg.password));
    if user.username in Usernames(db) then Err(DuplicateUsername)
    else
      var id := |db.users|;
      var profiles := if id in db.profiles then db.profiles else db.profiles[id := Profile(None, "user", now)];
      assert (db.users + [user])[..id] == db.users;
      Ok((UserDb(db.users + [user], profiles), id))
  }

  /** Create keeps the stored usernames distinct, as the unique column does. */
  lemma CreateKeepsUsernamesUnique(db: UserDb, reg: Registration, nu: string -> string, ne: string -> string,
                                   hash: string -> string, now: int)
    requires forall i, j | 0 <= i < j < |db.users| :: db.users[i].username != db.users[j].username
    requires Create(db, reg, nu, ne, hash, now).Ok?
    ensures var users := Create(db, reg, nu, ne, hash, now).value.0.users;
      forall i, j | 0 <= i < j < |users| :: users[i].username != users[j].username
  {
    var users := Create(db, reg, nu, ne, hash, now).value.0.users;
    forall i, j | 0 <= i < j < |users| ensures users[i].username != users[j].username {
      if j == |db.users| {
        assert users[i] == db.users[i];
        assert db.users[i].username in Usernames(db);
      } else {
        assert users[i] == db.users[i] && users[j] == db.users[j];
      }
    }
  }

  /**
   * A name the uniqueness validator accepts, because it differs from every stored name
   * as submitted, still fails at the insert when it normalises to a stored name.
   */
  lemma NormalisedCollisionFails(db: UserDb, input: RegisterInput, isEmail: string -> bool,
                                 nu: string -> string, ne: string -> string, hash: string -> string, now: int)
    requires ValidateRegistration(input, Usernames(db), isEmail).Ok?
    requires nu(PyStrip(input.username.value)) in Usernames(db)
    ensures PyStrip(input.username.value) !in Usernames(db)
    ensures Create(db, ValidateRegistration(input, Usernames(db), isEmail).value, nu, ne, hash, now) == Err(DuplicateUsername)
  {
  }

  /** Every profile belongs to an existing user. */
  ghost predicate ProfilesOwned(db: UserDb) {
    forall id | id in db.profiles :: id < |db.users|
  }

  /**
   * After create the new user has exactly one profile, a fresh default one, and every
   * profile still belongs to a user.
   */
  lemma CreateMakesProfile(db: UserDb, reg: Registration, nu: string -> string, ne: string -> string,
                           hash: string -> string, now: int)
    requires ProfilesOwned(db)
    ensures Create(db, reg, nu, ne, hash, now).Ok? ==>
      var (db', id) := Create(db, reg, nu, ne, hash, now).value;
      && ProfilesOwned(db')
      && id in db'.profiles && db'.profiles[id] == Profile(None, "user", now)
  {
  }

  /**
   * A registration without an email stores the normalised empty string as email, which
   * is the empty string itself for a normaliser that leaves '' alone, as Django's
   * normalize_email does.
   */
  lemma MissingEmailIsEmpty(db: UserDb, reg: Registration, nu: string -> string, ne: string -> string,
                            hash: string -> string, now: int)
    requires reg.email.None? && nu(reg.username) !in Usernames(db)
    ensures Create(db, reg, nu, ne, hash, now).Ok?
    ensures var (db', id) := Create(db, reg, nu, ne, hash, now).value; db'.users[id].email == ne("")
    ensures var (db', id) := Create(db, reg, nu, ne, hash, now).value; ne("") == "" ==> db'.users[id].email == ""
  {
  }
}
