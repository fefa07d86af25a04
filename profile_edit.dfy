/**
 * profile-edit.js: the profile page fills its form from GET /api/profile/me/, checks a
 * chosen photo's type and size, checks the three password fields in a fixed order, and
 * sends the form to PATCH /api/profile/me/ as multipart form data. Its getCookie is the
 * one of header.js (Header.GetCookie).
 */
module ProfileEdit {
  import opened Wrappers
  import opened Text
  import ProfileMe

  // ---------------------------------------------------------------------------
  // The chosen photo
  // ---------------------------------------------------------------------------

  /** A File object: its name, MIME type and size in bytes. */
  datatype ImageFile = ImageFile(name: string, mimeType: string, size: int)

  const ValidTypes := ["image/jpeg", "image/png", "image/gif", "image/webp"]
  /** 5 * 1024 * 1024 bytes, 5MB. */
  const MaxImageSize := 5_242_880
  const InvalidTypeMsg := "Por favor, selecione uma imagem válida (JPEG, PNG, GIF ou WebP)"
  const TooLargeMsg := "A imagem não pode ter mais de 5MB"

  /** The error the change handler shows for a chosen file, None when it is accepted. */
  function ImageCheck(file: ImageFile): (r: Option<string>)
    ensures r.None? <==> file.mimeType in ValidTypes && file.size <= MaxImageSize
    ensures file.mimeType !in ValidTypes ==> r == Some(InvalidTypeMsg)
    ensures file.mimeType in ValidTypes && file.size > MaxImageSize ==> r == Some(TooLargeMsg)
  {
    if file.mimeType !in ValidTypes then Some(InvalidTypeMsg)
    else if file.size > MaxImageSize then Some(TooLargeMsg)
    else None
  }

  /** The type is checked before the size: an oversized file of a wrong type gets the type message. */
  lemma TypeCheckedFirst(file: ImageFile)
    requires file.size > MaxImageSize
    ensures ImageCheck(file) == Some(if file.mimeType in ValidTypes then TooLargeMsg else InvalidTypeMsg)
  {
  }

  // ---------------------------------------------------------------------------
  // The password fields
  // ---------------------------------------------------------------------------

  const EnterCurrentMsg := "Digite sua senha atual para alterá-la"
  const EnterNewMsg := "Digite a nova senha"
  const ShortNewMsg := "A nova senha deve ter no mínimo 6 caracteres"
  const MismatchMsg := "As senhas não coincidem"
  const MinPasswordLength := 6

  /**
   * The checks of the submit handler, where newLength is the length the length check
   * measures of newPassword: none unless a field is filled in, then current required, new
   * required, at least 6 long, and equal to the confirmation.
   */
  function PasswordFieldsCheck(currentPassword: string, newPassword: string, confirmPassword: string, newLength: nat)
    : (r: Option<string>)
    ensures r.None? <==>
      (currentPassword == "" && newPassword == "" && confirmPassword == "") ||
      (currentPassword != "" && newPassword != "" && newLength >= MinPasswordLength && newPassword == confirmPassword)
    ensures currentPassword == "" && (newPassword != "" || confirmPassword != "") ==> r == Some(EnterCurrentMsg)
    ensures currentPassword != "" && newPassword == "" ==> r == Some(EnterNewMsg)
    ensures currentPassword != "" && newPassword != "" && newLength < MinPasswordLength ==> r == Some(ShortNewMsg)
    ensures currentPassword != "" && newPassword != "" && newLength >= MinPasswordLength && newPassword != confirmPassword ==>
      r == Some(MismatchMsg)
  {
    if newPassword != "" || confirmPassword != "" || currentPassword != "" then
      if currentPassword == "" then Some(EnterCurrentMsg)
      else if newPassword == "" then Some(EnterNewMsg)
      else if newLength < MinPasswordLength then Some(ShortNewMsg)
      else if newPassword != confirmPassword then Some(MismatchMsg)
      else None
    else None
  }

  /** The check as written: newPassword.length counts UTF-16 code units. */
  function PasswordCheck(currentPassword: string, newPassword: string, confirmPassword: string): (r: Option<string>)
    ensures r.None? && newPassword != "" ==> Utf16Length(newPassword) >= MinPasswordLength && newPassword == confirmPassword
  {
    PasswordFieldsCheck(currentPassword, newPassword, confirmPassword, Utf16Length(newPassword))
  }

  /** The check with the length counted in characters, as the server's len() counts it. */
  function PasswordCheckCodePoints(currentPassword: string, newPassword: string, confirmPassword: string)
    : (r: Option<string>)
    ensures r.None? && newPassword != "" ==> |newPassword| >= MinPasswordLength && newPassword == confirmPassword
  {
    PasswordFieldsCheck(currentPassword, newPassword, confirmPassword, |newPassword|)
  }

  /** The two checks differ only on passwords with characters outside the Basic Multilingual Plane. */
  lemma ChecksAgreeOnBmp(currentPassword: string, newPassword: string, confirmPassword: string)
    requires forall i | 0 <= i < |newPassword| :: newPassword[i] as int <= 0xFFFF
    ensures PasswordCheck(currentPassword, newPassword, confirmPassword)
         == PasswordCheckCodePoints(currentPassword, newPassword, confirmPassword)
  {
  }

  /** What the character count accepts the code-unit count accepts too. */
  lemma CodePointCheckStricter(currentPassword: string, newPassword: string, confirmPassword: string)
    requires PasswordCheckCodePoints(currentPassword, newPassword, confirmPassword).None?
    ensures PasswordCheck(currentPassword, newPassword, confirmPassword).None?
  {
  }

  // ---------------------------------------------------------------------------
  // The form data sent by PATCH
  // ---------------------------------------------------------------------------

  datatype FormValue = TextValue(text: string) | FileValue(file: ImageFile)

  datatype FormEntry = FormEntry(key: string, value: FormValue)

  /** A FormData object, the entries in the order they were appended. */
  class FormData {
    var entries: seq<FormEntry>

    constructor ()
      ensures entries == []
    {
      entries := [];
    }

    /** append(key, value) */
    method Append(key: string, value: FormValue)
      modifies this
      ensures entries == old(entries) + [FormEntry(key, value)]
    {
      entries := entries + [FormEntry(key, value)];
    }
  }

  /**
   * The form data of the submit handler: first_name, last_name and email always, both
   * password fields when the current and the new one are filled in, and the chosen photo
   * when there is one.
   */
  function Payload(firstName: string, lastName: string, email: string, currentPassword: string, newPassword: string,
                   photo: Option<ImageFile>): (r: seq<FormEntry>)
    ensures |r| == 3 + (if currentPassword != "" && newPassword != "" then 2 else 0) + (if photo.Some? then 1 else 0)
    ensures photo.Some? ==> r[|r| - 1] == FormEntry("profile_photo", FileValue(photo.value))
    ensures forall i | 3 <= i < |r| :: r[i].value.TextValue? <==> r[i].key != "profile_photo"
  {
    [FormEntry("first_name", TextValue(firstName)), FormEntry("last_name", TextValue(lastName)),
     FormEntry("email", TextValue(email))]
    + (if currentPassword != "" && newPassword != "" then
         [FormEntry("current_password", TextValue(currentPassword)), FormEntry("new_password", TextValue(newPassword))]
       else [])
    + (if photo.Some? then [FormEntry("profile_photo", FileValue(photo.value))] else [])
  }

  /** No entry after the i-th has its key. */
  predicate LastOfKey(entries: seq<FormEntry>, i: nat)
    requires i < |entries|
  {
    forall j | i < j < |entries| :: entries[j].key != entries[i].key
  }

  /** The value of the last entry of key, as a QueryDict's get gives it for a repeated key. */
  function FieldOf(entries: seq<FormEntry>, key: string): (r: Option<FormValue>)
    ensures r.Some? ==> exists i | 0 <= i < |entries| :: entries[i] == FormEntry(key, r.value) && LastOfKey(entries, i)
    ensures r.None? ==> forall i | 0 <= i < |entries| :: entries[i].key != key
    decreases |entries|
  {
    if entries == [] then None
    else
      var n := |entries| - 1;
      if entries[n].key == key then
        assert LastOfKey(entries, n);
        Some(entries[n].value)
      else
        var front := entries[..n];
        var rest := FieldOf(front, key);
        assert forall i | 0 <= i < n :: front[i] == entries[i];
        assert rest.Some? ==> exists i | 0 <= i < |entries| :: entries[i] == FormEntry(key, rest.value) && LastOfKey(entries, i) by {
          if rest.Some? {
            var i :| 0 <= i < n && front[i] == FormEntry(key, rest.value) && LastOfKey(front, i);
            assert LastOfKey(entries, i);
          }
        }
        rest
  }

  /** request.data.get(key) on the server: the text of the key's last entry, None when it is absent. */
  function TextField(entries: seq<FormEntry>, key: string): Option<string> {
    match FieldOf(entries, key)
    case Some(TextValue(t)) => Some(t)
    case _ => None
  }

  predicate UniqueKeys(entries: seq<FormEntry>) {
    forall i, j | 0 <= i < j < |entries| :: entries[i].key != entries[j].key
  }

  /** Builds the form data step by step, as the submit handler does. */
  method BuildPayload(firstName: string, lastName: string, email: string, currentPassword: string,
                      newPassword: string, photo: Option<ImageFile>) returns (formData: FormData)
    ensures fresh(formData)
    ensures formData.entries == Payload(firstName, lastName, email, currentPassword, newPassword, photo)
  {
    formData := new FormData();
    formData.Append("first_name", TextValue(firstName));
    formData.Append("last_name", TextValue(lastName));
    formData.Append("email", TextValue(email));
    if currentPassword != "" && newPassword != "" {
      formData.Append("current_password", TextValue(currentPassword));
      formData.Append("new_password", TextValue(newPassword));
    }
    if photo.Some? {
      formData.Append("profile_photo", FileValue(photo.value));
    }
  }

  /** With keys that are all different, the lookup of an entry's key gives that entry's value. */
  lemma FieldAt(entries: seq<FormEntry>, i: nat)
    requires UniqueKeys(entries) && i < |entries|
    ensures FieldOf(entries, entries[i].key) == Some(entries[i].value)
  {
    var r := FieldOf(entries, entries[i].key);
    var j :| 0 <= j < |entries| && entries[j] == FormEntry(entries[i].key, r.value) && LastOfKey(entries, j);
    assert j == i;
  }

  /** The keys of the form data, which differ already in their lengths. */
  lemma PayloadKeys(firstName: string, lastName: string, email: string, currentPassword: string,
                    newPassword: string, photo: Option<ImageFile>)
    ensures var p := Payload(firstName, lastName, email, currentPassword, newPassword, photo);
      && UniqueKeys(p)
      && p[0] == FormEntry("first_name", TextValue(firstName))
      && p[1] == FormEntry("last_name", TextValue(lastName))
      && p[2] == FormEntry("email", TextValue(email))
  {
    var p := Payload(firstName, lastName, email, currentPassword, newPassword, photo);
    assert forall i | 0 <= i < |p| :: |p[i].key| in {10, 9, 5, 16, 12, 13};
    assert forall i, j | 0 <= i < j < |p| :: |p[i].key| != |p[j].key|;
  }

  /** The server reads the three profile fields as the form gives them. */
  lemma PayloadProfileFields(firstName: string, lastName: string, email: string, currentPassword: string,
                             newPassword: string, photo: Option<ImageFile>)
    ensures var p := Payload(firstName, lastName, email, currentPassword, newPassword, photo);
      && TextField(p, "first_name") == Some(firstName)
      && TextField(p, "last_name") == Some(lastName)
      && TextField(p, "email") == Some(email)
  {
    var p := Payload(firstName, lastName, email, currentPassword, newPassword, photo);
    PayloadKeys(firstName, lastName, email, currentPassword, newPassword, photo);
    FieldAt(p, 0);
    FieldAt(p, 1);
    FieldAt(p, 2);
  }

  /** The server reads both password fields exactly when the current and the new one were filled in. */
  lemma PayloadPasswordFields(firstName: string, lastName: string, email: string, currentPassword: string,
                              newPassword: string, photo: Option<ImageFile>)
    ensures var p := Payload(firstName, lastName, email, currentPassword, newPassword, photo);
      && TextField(p, "current_password") == (if currentPassword != "" && newPassword != "" then Some(currentPassword) else None)
      && TextField(p, "new_password") == (if currentPassword != "" && newPassword != "" then Some(newPassword) else None)
  {
    var p := Payload(firstName, lastName, email, currentPassword, newPassword, photo);
    PayloadKeys(firstName, lastName, email, currentPassword, newPassword, photo);
    if currentPassword != "" && newPassword != "" {
      FieldAt(p, 3);
      FieldAt(p, 4);
    } else {
      assert forall i | 0 <= i < |p| :: |p[i].key| != 16 && |p[i].key| != 12;
    }
  }

  /** The form carries the photo exactly when one was chosen. */
  lemma PayloadPhotoField(firstName: string, lastName: string, email: string, currentPassword: string,
                          newPassword: string, photo: Option<ImageFile>)
    ensures var p := Payload(firstName, lastName, email, currentPassword, newPassword, photo);
      FieldOf(p, "profile_photo") == (if photo.Some? then Some(FileValue(photo.value)) else None)
  {
    var p := Payload(firstName, lastName, email, currentPassword, newPassword, photo);
    PayloadKeys(firstName, lastName, email, currentPassword, newPassword, photo);
    if photo.Some? {
      FieldAt(p, |p| - 1);
    } else {
      assert forall i | 0 <= i < |p| :: |p[i].key| != 13;
    }
  }

  /**
   * The server reads from the form data the three profile fields as given and both
   * password fields exactly when the current and the new one were filled in; the form
   * carries the photo when one was chosen; no key is sent twice.
   */
  lemma PayloadFields(firstName: string, lastName: string, email: string, currentPassword: string,
                      newPassword: string, photo: Option<ImageFile>)
    ensures var p := Payload(firstName, lastName, email, currentPassword, newPassword, photo);
      && UniqueKeys(p)
      && TextField(p, "first_name") == Some(firstName)
      && TextField(p, "last_name") == Some(lastName)
      && TextField(p, "email") == Some(email)
      && TextField(p, "current_password") == (if currentPassword != "" && newPassword != "" then Some(currentPassword) else None)
      && TextField(p, "new_password") == (if currentPassword != "" && newPassword != "" then Some(newPassword) else None)
      && FieldOf(p, "profile_photo") == (if photo.Some? then Some(FileValue(photo.value)) else None)
  {
    PayloadKeys(firstName, lastName, email, currentPassword, newPassword, photo);
    PayloadProfileFields(firstName, lastName, email, currentPassword, newPassword, photo);
    PayloadPasswordFields(firstName, lastName, email, currentPassword, newPassword, photo);
    PayloadPhotoField(firstName, lastName, email, currentPassword, newPassword, photo);
  }

  /**
   * A submission that passes the character-count check also passes the server's presence
   * and length checks: the server keeps the password, changes it to the new one, or
   * refuses only a wrong current password.
   */
  lemma ClientChecksCoverServer(firstName: string, lastName: string, email: string, currentPassword: string,
                                newPassword: string, confirmPassword: string, photo: Option<ImageFile>,
                                checkPassword: string -> bool)
    requires PasswordCheckCodePoints(currentPassword, newPassword, confirmPassword).None?
    ensures var p := Payload(firstName, lastName, email, currentPassword, newPassword, photo);
      var step := ProfileMe.PasswordGuard(TextField(p, "current_password"), TextField(p, "new_password"), checkPassword);
      && (currentPassword == "" ==> step == ProfileMe.KeepPassword)
      && (currentPassword != "" ==>
            step == ProfileMe.ChangePassword(newPassword) || step == ProfileMe.Refuse(ProfileMe.WrongCurrentMsg))
  {
    PayloadFields(firstName, lastName, email, currentPassword, newPassword, photo);
  }

  /**
   * With the code-unit count, three emoji (six code units, three characters) pass the
   * client's checks and are refused by the server as too short.
   */
  lemma EmojiPasswordRefusedByServer(checkPassword: string -> bool)
    requires checkPassword("x")
    ensures var pw := "\U{1F600}\U{1F600}\U{1F600}";
      && PasswordCheck("x", pw, pw).None?
      && PasswordCheckCodePoints("x", pw, pw) == Some(ShortNewMsg)
      && ProfileMe.PasswordGuard(Some("x"), Some(pw), checkPassword) == ProfileMe.Refuse(ProfileMe.TooShortMsg)
  {
    var pw := "\U{1F600}\U{1F600}\U{1F600}";
    assert Utf16Length(pw) == 6 by {
      assert pw[1..][1..][1..] == [];
    }
  }

  // ---------------------------------------------------------------------------
  // Answers from the server
  // ---------------------------------------------------------------------------

  const UpdateFailedMsg := "Erro ao atualizar perfil"
  const UpdateFailedRetryMsg := "Erro ao atualizar perfil. Verifique os dados e tente novamente."
  const UpdateDoneMsg := "Perfil atualizado com sucesso!"
  const LoadFailedMsg := "Erro ao carregar dados do perfil. Por favor, recarregue a página."

  /**
   * The answer of the PATCH request: response.ok and the string fields error, message and
   * detail of its JSON body, or a request or JSON parse that threw with the given message.
   */
  datatype PatchAnswer =
    | PatchReply(ok: bool, error: Option<string>, message: Option<string>, detail: Option<string>)
    | PatchFailed(reason: string)

  /** The error shown for a failed update: the first non-empty reason, else a fixed text. */
  function UpdateErrorText(answer: PatchAnswer): (m: string)
    requires !(answer.PatchReply? && answer.ok)
    ensures m != ""
    ensures answer.PatchReply? && Truthy(answer.error) ==> m == answer.error.value
    ensures answer.PatchReply? && !Truthy(answer.error) && Truthy(answer.message) ==> m == answer.message.value
    ensures answer.PatchReply? && !Truthy(answer.error) && !Truthy(answer.message) && Truthy(answer.detail) ==>
      m == answer.detail.value
    ensures answer.PatchReply? && !Truthy(answer.error) && !Truthy(answer.message) && !Truthy(answer.detail) ==>
      m == UpdateFailedMsg
    ensures answer.PatchFailed? ==> m == if answer.reason != "" then answer.reason else UpdateFailedRetryMsg
  {
    if answer.PatchFailed? then
      if answer.reason != "" then answer.reason else UpdateFailedRetryMsg
    else if Truthy(answer.error) then answer.error.value
    else if Truthy(answer.message) then answer.message.value
    else if Truthy(answer.detail) then answer.detail.value
    else UpdateFailedMsg
  }

  /** The success text of an accepted update: its message, else a fixed text. */
  function UpdateDoneText(message: Option<string>): (m: string)
    ensures m != ""
    ensures Truthy(message) ==> m == message.value
    ensures !Truthy(message) ==> m == UpdateDoneMsg
  {
    if message.Some? && message.value != "" then message.value else UpdateDoneMsg
  }

  /** How the JSON of a ProfileMeView response reaches the page. */
  function ServerReply(response: ProfileMe.Response): PatchAnswer {
    PatchReply(
      200 <= response.status <= 299,
      if response.body.ErrorBody? then Some(response.body.error) else None,
      if response.body.Updated? then Some(response.body.message) else None,
      None)
  }

  /**
   * Every refusal of the server's password checks reaches the user with the server's own
   * message, and a successful PATCH with the server's success message.
   */
  lemma ServerMessagesShown(currentPassword: Option<string>, newPassword: Option<string>, checkPassword: string -> bool,
                            data: ProfileMe.UserView)
    ensures var step := ProfileMe.PasswordGuard(currentPassword, newPassword, checkPassword);
      step.Refuse? ==> UpdateErrorText(ServerReply(ProfileMe.Response(400, ProfileMe.ErrorBody(step.error)))) == step.error
    ensures var reply := ServerReply(ProfileMe.Response(200, ProfileMe.Updated(ProfileMe.PatchMessage(newPassword), data)));
      reply.ok && UpdateDoneText(reply.message) == ProfileMe.PatchMessage(newPassword)
    ensures UpdateErrorText(ServerReply(ProfileMe.Response(400, ProfileMe.FieldErrors))) == UpdateFailedMsg
  {
  }

  /** The fields of GET /api/profile/me/ the form reads; None when absent or null. */
  datatype ProfileJson = ProfileJson(
    firstName: Option<string>,
    lastName: Option<string>,
    username: Option<string>,
    email: Option<string>,
    profilePhoto: Option<string>)

  /** value || '': the text of a field, '' when it is missing, null or empty. */
  function FieldText(v: Option<string>): (r: string)
    ensures r == "" <==> !Truthy(v)
    ensures Truthy(v) ==> r == v.value
  {
    if v.Some? then v.value else ""
  }

  /** The answer of the GET request: the profile when response.ok, else a failure. */
  datatype ProfileAnswer = Loaded(data: ProfileJson) | LoadFailed

  // ---------------------------------------------------------------------------
  // The page
  // ---------------------------------------------------------------------------

  /** The form fields and messages of the profile page. */
  class ProfilePage {
    var firstName: string
    var lastName: string
    var username: string
    var email: string
    var currentPassword: string
    var newPassword: string
    var confirmPassword: string
    /** The file input's selection. */
    var selectedPhoto: Option<ImageFile>
    var photoPreview: string
    var photoFilename: string
    /** The texts of the error and the status box while shown. */
    var errorText: Option<string>
    var statusText: Option<string>

    constructor (photoPreview: string)
      ensures this.photoPreview == photoPreview
      ensures firstName == lastName == username == email == ""
      ensures currentPassword == newPassword == confirmPassword == ""
      ensures selectedPhoto == None && photoFilename == "" && errorText == None && statusText == None
    {
      this.photoPreview := photoPreview;
      firstName, lastName, username, email := "", "", "", "";
      currentPassword, newPassword, confirmPassword := "", "", "";
      selectedPhoto, photoFilename := None, "";
      errorText, statusText := None, None;
    }

    /** showError: the error box shows the message and the status box is hidden. */
    method ShowError(message: string)
      modifies this
      ensures errorText == Some(message) && statusText == None
      ensures firstName == old(firstName) && lastName == old(lastName) && username == old(username) && email == old(email)
      ensures currentPassword == old(currentPassword) && newPassword == old(newPassword)
      ensures confirmPassword == old(confirmPassword)
      ensures selectedPhoto == old(selectedPhoto) && photoPreview == old(photoPreview)
      ensures photoFilename == old(photoFilename)
    {
      errorText := Some(message);
      statusText := None;
    }

    /** populateForm: each text field from the profile, '' when missing; the preview only when there is a photo. */
    method PopulateForm(data: ProfileJson)
      modifies this
      ensures firstName == FieldText(data.firstName) && lastName == FieldText(data.lastName)
      ensures username == FieldText(data.username) && email == FieldText(data.email)
      ensures photoPreview == if Truthy(data.profilePhoto) then data.profilePhoto.value else old(photoPreview)
      ensures currentPassword == old(currentPassword) && newPassword == old(newPassword)
      ensures confirmPassword == old(confirmPassword)
      ensures selectedPhoto == old(selectedPhoto) && photoFilename == old(photoFilename)
      ensures errorText == old(errorText) && statusText == old(statusText)
    {
      firstName := FieldText(data.firstName);
      lastName := FieldText(data.lastName);
      username := FieldText(data.username);
      email := FieldText(data.email);
      if data.profilePhoto.Some? && data.profilePhoto.value != "" {
        photoPreview := data.profilePhoto.value;
      }
    }

    /** loadProfileData: fills the form, or shows the load error when the request fails. */
    method LoadProfileData(answer: ProfileAnswer)
      modifies this
      ensures answer.Loaded? ==>
        && firstName == FieldText(answer.data.firstName) && lastName == FieldText(answer.data.lastName)
        && username == FieldText(answer.data.username) && email == FieldText(answer.data.email)
        && photoPreview == (if Truthy(answer.data.profilePhoto) then answer.data.profilePhoto.value else old(photoPreview))
        && errorText == old(errorText) && statusText == old(statusText)
      ensures answer.LoadFailed? ==>
        && errorText == Some(LoadFailedMsg) && statusText == None
        && firstName == old(firstName) && lastName == old(lastName)
        && username == old(username) && email == old(email) && photoPreview == old(photoPreview)
      ensures currentPassword == old(currentPassword) && newPassword == old(newPassword)
      ensures confirmPassword == old(confirmPassword)
      ensures selectedPhoto == old(selectedPhoto) && photoFilename == old(photoFilename)
    {
      if answer.LoadFailed? {
        ShowError(LoadFailedMsg);
      } else {
        PopulateForm(answer.data);
      }
    }

    /**
     * The change handler of the file input, for the chosen file (None when the choice was
     * cancelled) and the data URL the FileReader produces for it: a refused file is shown
     * as an error and the selection cleared; an accepted one is previewed.
     */
    method SelectPhoto(file: Option<ImageFile>, dataUrl: string)
      modifies this
      ensures file.Some? && ImageCheck(file.value).Some? ==>
        && errorText == ImageCheck(file.value) && statusText == None && selectedPhoto == None
        && photoPreview == old(photoPreview) && photoFilename == old(photoFilename)
      ensures file.Some? && ImageCheck(file.value).None? ==>
        && selectedPhoto == file && photoPreview == dataUrl && photoFilename == file.value.name
        && errorText == old(errorText) && statusText == old(statusText)
      ensures file.None? ==>
        && selectedPhoto == None && photoPreview == old(photoPreview) && photoFilename == old(photoFilename)
        && errorText == old(errorText) && statusText == old(statusText)
      ensures firstName == old(firstName) && lastName == old(lastName) && username == old(username) && email == old(email)
      ensures currentPassword == old(currentPassword) && newPassword == old(newPassword)
      ensures confirmPassword == old(confirmPassword)
    {
      selectedPhoto := file;
      if file.Some? {
        var problem := ImageCheck(file.value);
        if problem.Some? {
          ShowError(problem.value);
          selectedPhoto := None;
          return;
        }
        photoPreview := dataUrl;
        photoFilename := file.value.name;
      }
    }

    /**
     * The submit handler, with send standing for the PATCH request of the form data
     * (sent with the localStorage token). A client password check that fails shows its
     * message and sends nothing; the check is the one the page runs, which counts
     * code units (PasswordCheck). Otherwise the form data goes out, and the answer's error
     * is shown, or its success message, after which the password fields are cleared.
     * It returns the form data sent, if any.
     */
    method Submit(send: seq<FormEntry> -> PatchAnswer) returns (sent: Option<seq<FormEntry>>)
      modifies this
      ensures var problem := PasswordCheck(old(currentPassword), old(newPassword), old(confirmPassword));
        problem.Some? ==> sent == None && errorText == problem && statusText == None
                          && currentPassword == old(currentPassword) && newPassword == old(newPassword)
                          && confirmPassword == old(confirmPassword)
      ensures PasswordCheck(old(currentPassword), old(newPassword), old(confirmPassword)).None? ==>
        sent == Some(Payload(old(firstName), old(lastName), old(email), old(currentPassword), old(newPassword),
                             old(selectedPhoto)))
      ensures sent.Some? && send(sent.value).PatchReply? && send(sent.value).ok ==>
        && statusText == Some(UpdateDoneText(send(sent.value).message)) && errorText == None
        && currentPassword == newPassword == confirmPassword == ""
      ensures sent.Some? && !(send(sent.value).PatchReply? && send(sent.value).ok) ==>
        && errorText == Some(UpdateErrorText(send(sent.value))) && statusText == None
        && currentPassword == old(currentPassword) && newPassword == old(newPassword)
        && confirmPassword == old(confirmPassword)
      ensures firstName == old(firstName) && lastName == old(lastName) && username == old(username)
      ensures email == old(email)
      ensures selectedPhoto == old(selectedPhoto) && photoPreview == old(photoPreview)
      ensures photoFilename == old(photoFilename)
    {
      var problem := PasswordCheck(currentPassword, newPassword, confirmPassword);
      if problem.Some? {
        ShowError(problem.value);
        return None;
      }
      var formData := BuildPayload(firstName, lastName, email, currentPassword, newPassword, selectedPhoto);
      var answer := send(formData.entries);
      sent := Some(formData.entries);
      if !(answer.PatchReply? && answer.ok) {
        ShowError(UpdateErrorText(answer));
        return;
      }
      statusText := Some(UpdateDoneText(answer.message));
      errorText := None;
      currentPassword := "";
      newPassword := "";
      confirmPassword := "";
    }
  }
}
