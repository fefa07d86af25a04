/**
 * ProfileMeView (app/house/api/profile_me.py): the signed-in user's own profile.
 * GET adds profile_photo, PUT and PATCH run UserProfileSerializer, and PATCH first runs
 * a fixed chain of password checks that may change the password.
 */
module ProfileMe {
  import opened Wrappers
  import opened Text
  import opened Serializer

  const CurrentRequiredMsg := "Senha atual é obrigatória para alterar a senha"
  const NewRequiredMsg := "Nova senha é obrigatória"
  const WrongCurrentMsg := "Senha atual incorreta"
  const TooShortMsg := "A nova senha deve ter no mínimo 6 caracteres"
  const UpdatedMsg := "Perfil atualizado com sucesso"
  const UpdatedWithPasswordMsg := "Perfil e senha atualizados com sucesso"
  const MinNewPasswordLength := 6

  /** What the password checks of PATCH decide. */
  datatype PasswordStep = KeepPassword | ChangePassword(newPassword: string) | Refuse(error: string)

  /**
   * The early-return chain of patch. No check runs unless one of the two fields is
   * filled in; then, in this order: the current password is required, the new one is
   * required, the current one must pass checkPassword (the user's check_password), and
   * the new one must have at least 6 characters.
   */
  function PasswordGuard(currentPassword: Option<string>, newPassword: Option<string>, checkPassword: string -> bool)
    : (r: PasswordStep)
    ensures r == KeepPassword <==> !Truthy(currentPassword) && !Truthy(newPassword)
    ensures r == Refuse(CurrentRequiredMsg) <==> !Truthy(currentPassword) && Truthy(newPassword)
    ensures r == Refuse(NewRequiredMsg) <==> Truthy(currentPassword) && !Truthy(newPassword)
    ensures r == Refuse(WrongCurrentMsg) <==> Truthy(currentPassword) && Truthy(newPassword) && !checkPassword(currentPassword.value)
    ensures r == Refuse(TooShortMsg) <==>
      Truthy(currentPassword) && Truthy(newPassword) && checkPassword(currentPassword.value) && |newPassword.value| < MinNewPasswordLength
    ensures r.ChangePassword? <==>
      Truthy(currentPassword) && Truthy(newPassword) && checkPassword(currentPassword.value) && |newPassword.value| >= MinNewPasswordLength
    ensures r.ChangePassword? ==> r.newPassword == newPassword.value
  {
    if Truthy(currentPassword) || Truthy(newPassword) then
      if !Truthy(currentPassword) then Refuse(CurrentRequiredMsg)
      else if !Truthy(newPassword) then Refuse(NewRequiredMsg)
      else if !checkPassword(currentPassword.value) then Refuse(WrongCurrentMsg)
      else if |newPassword.value| < MinNewPasswordLength then Refuse(TooShortMsg)
      else ChangePassword(newPassword.value)
    else KeepPassword
  }

  /** The serializer's representation of a user: the five fields and the nested profile. */
  datatype UserView = UserView(
    username: string,
    email: string,
    firstName: string,
    lastName: string,
    isActive: bool,
    profile: Option<Profile>)

  function View(u: UserRecord): UserView {
    UserView(u.username, u.email, u.firstName, u.lastName, u.isActive, u.profile)
  }

  datatype Body =
    | ErrorBody(error: string)
    | Updated(message: string, data: UserView)
    | FieldErrors
    | ProfileData(data: UserView, profilePhoto: Option<string>)

  datatype Response = Response(status: int, body: Body)

  /** The success message of PATCH: it mentions the password exactly when new_password was given. */
  function PatchMessage(newPassword: Option<string>): (m: string)
    ensures m == UpdatedWithPasswordMsg <==> Truthy(newPassword)
    ensures m == UpdatedMsg <==> !Truthy(newPassword)
  {
    if Truthy(newPassword) then UpdatedWithPasswordMsg else UpdatedMsg
  }

  /**
   * profile_photo of GET: the absolute URL of the profile image when the user has a
   * profile with an image; None when there is no profile, no image, or building the
   * URL raises (absoluteUrl returns None).
   */
  function ProfilePhoto(profile: Option<Profile>, absoluteUrl: string -> Option<string>): (r: Option<string>)
    ensures r.Some? ==> profile.Some? && profile.value.profileImg.Some? && profile.value.profileImg.value != ""
    ensures profile.Some? && profile.value.profileImg.Some? && profile.value.profileImg.value != "" ==>
      r == absoluteUrl(profile.value.profileImg.value)
    ensures profile.None? || profile.value.profileImg.None? || profile.value.profileImg.value == "" ==> r.None?
  {
    if profile.Some? && profile.value.profileImg.Some? && profile.value.profileImg.value != "" then
      absoluteUrl(profile.value.profileImg.value)
    else None
  }

  /** GET: the user's representation plus profile_photo; it always answers 200. */
  method Get(user: User, absoluteUrl: string -> Option<string>) returns (response: Response)
    ensures response.status == 200
    ensures response.body == ProfileData(View(user.Record()), ProfilePhoto(user.profile, absoluteUrl))
  {
    var photo: Option<string> := None;
    if user.profile.Some? && user.profile.value.profileImg.Some? && user.profile.value.profileImg.value != "" {
      photo := absoluteUrl(user.profile.value.profileImg.value);
    }
    response := Response(200, ProfileData(View(user.Record()), photo));
  }

  /**
   * PUT: validate(partial) is UserProfileSerializer's is_valid on the request data for
   * the given partial flag, None when it fails; PUT asks for a full validation. A valid
   * update is saved and answered with its data.
   */
  method Put(user: User, validate: bool -> Option<Changes>) returns (response: Response)
    modifies user
    ensures validate(false).None? ==> response == Response(400, FieldErrors) && user.Record() == old(user.Record())
    ensures validate(false).Some? ==> user.Record() == Merge(old(user.Record()), validate(false).value)
    ensures validate(false).Some? ==> response == Response(200, Updated(UpdatedMsg, View(user.Record())))
  {
    var validated := validate(false);
    if validated.None? {
      return Response(400, FieldErrors);
    }
    user.Update(validated.value);
    response := Response(200, Updated(UpdatedMsg, View(user.Record())));
  }

  /** The user after the password step of PATCH. */
  function AfterPasswordStep(u: UserRecord, step: PasswordStep, hash: string -> string): (r: UserRecord)
    ensures r.password == if step.ChangePassword? then hash(step.newPassword) else u.password
    ensures r.(password := u.password) == u
  {
    if step.ChangePassword? then u.(password := hash(step.newPassword)) else u
  }

  /**
   * PATCH: the password checks, set_password and save when they pass, then the partial
   * validation validate(true) (see Put) and the update. The password is saved
   * before the serializer runs, so a 400 from the serializer keeps the new password.
   */
  method Patch(user: User, currentPassword: Option<string>, newPassword: Option<string>, checkPassword: string -> bool,
               hash: string -> string, validate: bool -> Option<Changes>) returns (response: Response)
    modifies user
    ensures var step := PasswordGuard(currentPassword, newPassword, checkPassword);
      step.Refuse? ==> response == Response(400, ErrorBody(step.error)) && user.Record() == old(user.Record())
    ensures var step := PasswordGuard(currentPassword, newPassword, checkPassword);
      !step.Refuse? && validate(true).None? ==>
        && response == Response(400, FieldErrors)
        && user.Record() == AfterPasswordStep(old(user.Record()), step, hash)
    ensures var step := PasswordGuard(currentPassword, newPassword, checkPassword);
      !step.Refuse? && validate(true).Some? ==>
        && user.Record() == Merge(AfterPasswordStep(old(user.Record()), step, hash), validate(true).value)
        && response == Response(200, Updated(PatchMessage(newPassword), View(user.Record())))
  {
    if Truthy(currentPassword) || Truthy(newPassword) {
      if !Truthy(currentPassword) {
        return Response(400, ErrorBody(CurrentRequiredMsg));
      }
      if !Truthy(newPassword) {
        return Response(400, ErrorBody(NewRequiredMsg));
      }
      if !checkPassword(currentPassword.value) {
        return Response(400, ErrorBody(WrongCurrentMsg));
      }
      if |newPassword.value| < MinNewPasswordLength {
        return Response(400, ErrorBody(TooShortMsg));
      }
      user.SetPassword(newPassword.value, hash);
    }
    var validated := validate(true);
    if validated.None? {
      return Response(400, FieldErrors);
    }
    user.Update(validated.value);
    var message := UpdatedMsg;
    if Truthy(newPassword) {
      message := UpdatedWithPasswordMsg;
    }
    response := Response(200, Updated(message, View(user.Record())));
  }

  /**
   * The password changes only through a successful guard: a present and correct current
   * password and a new one of at least 6 characters.
   */
  lemma PasswordChangesOnlyWhenAllowed(u: UserRecord, currentPassword: Option<string>, newPassword: Option<string>,
                                       checkPassword: string -> bool, hash: string -> string)
    requires !PasswordGuard(currentPassword, newPassword, checkPassword).ChangePassword?
    ensures AfterPasswordStep(u, PasswordGuard(currentPassword, newPassword, checkPassword), hash) == u
  {
  }

  /** With neither password field filled in, no check runs and the password stays. */
  lemma NoPasswordFieldsNoCheck(u: UserRecord, currentPassword: Option<string>, newPassword: Option<string>,
                                checkPassword: string -> bool, hash: string -> string)
    requires !Truthy(currentPassword) && !Truthy(newPassword)
    ensures PasswordGuard(currentPassword, newPassword, checkPassword) == KeepPassword
    ensures forall other: string -> bool :: PasswordGuard(currentPassword, newPassword, other) == KeepPassword
  {
  }
}
