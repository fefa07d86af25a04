# A verified model of the profile, tag and session code of tcc-engs

tcc-engs is a Django file-hosting site with a small JavaScript front end. This project
models, in Dafny, its account and session handling and its tag listing:

- **The JWT middleware.** It exempts a request from CSRF checks when a Bearer token comes
  with it. It also copies an `access_token` cookie into a missing `Authorization` header.
- **The user serializers.** One merges profile updates; another validates a registration
  and then creates the user and its profile.
- **The signed-in user's profile API.** GET adds the photo URL. PUT updates the profile.
  PATCH runs a chain of password checks before the partial update.
- **The tag API.** It lists live tags, with an optional window of "new" tags. It parses
  `novo` and `limit` the way Python's `int()` does, including its default refusal of
  strings of more than 4300 digits. It ranks tags by use count and by last use.
- **Two data migrations.** 0007 backfills `Tag.updated_at`. 0013 creates or updates, and
  on reverse deletes, the `ext_files` configuration row.
- **Three scripts.** `login.js` stores the tokens. `header.js` reads the token, shows the
  user menu and logs out. `profile-edit.js` checks the photo and the password fields and
  sends the PATCH form.

Browser state is a class, `Browser.BrowserState`, with two fields: a cookie jar and
localStorage. The jar follows sections 5.2 to 5.4 of RFC 6265 for one host and the path
`/`.

The scripts' cookie lookups are proved to read back what the jar holds, for cookies
without separators or spaces. So these facts are theorems about the whole round trip:

- after a login, both readers of `document.cookie` find the stored token;
- after logout or a 401, neither reader finds either token.

Server state that the source updates in place is also modelled with classes:

- the user instance;
- the request passing through the middleware;
- the Tag table, as an array;
- the Configuration table.

Pure logic is modelled as functions with lemmas.

Calls into code that is not visible become parameters:

- `check_password` and the password hasher;
- `decodeURIComponent`, whose `None` result stands for a thrown `URIError`;
- `build_absolute_uri` and `Date.toUTCString`;
- the clocks;
- the serializer's `is_valid` result and the user manager's normalisers;
- `fetch`, as the answer it gives.

## Model

| member | source | states |
|---|---|---|
| Middleware.Authenticate | app/cloudunderroof/middleware.py:9-18 | the cookies stay as they were, an exemption is never withdrawn, and no header other than Authorization is added, dropped or changed |
| Middleware.BearerHeaderIsExempt | app/cloudunderroof/middleware.py:11-12 | a header starting with "Bearer " makes the request exempt and the headers stay as they were |
| Middleware.CookiePromoted | app/cloudunderroof/middleware.py:15-18 | a non-empty access_token cookie and an absent or empty header give the header "Bearer <cookie>" and an exempt request |
| Middleware.HeaderNeverOverwritten | app/cloudunderroof/middleware.py:16 | a non-empty Authorization header of any scheme is never replaced |
| Middleware.EmptyCookieNotPromoted | app/cloudunderroof/middleware.py:15-16 | an absent or empty cookie adds no header, and the exemption then depends only on the Bearer prefix |
| Middleware.OtherSchemeNotExempt | app/cloudunderroof/middleware.py:11-18 | a non-Bearer header leaves the request entirely unchanged, even when a cookie is present |
| Middleware.ExemptExactly | app/cloudunderroof/middleware.py:11-18 | after the call the request is exempt if and only if it already was, carried a Bearer header, or had its cookie promoted |
| Middleware.AuthenticateIdempotent | app/cloudunderroof/middleware.py:9-18 | running the middleware twice leaves the request as running it once does |
| Middleware.Request.constructor | app/cloudunderroof/middleware.py:9 | a request arrives with its headers and cookies and without the CSRF exemption |
| Middleware.JwtAuthenticationMiddleware.constructor | app/cloudunderroof/middleware.py:6-7 | the middleware keeps the downstream handler it was given |
| Middleware.JwtAuthenticationMiddleware.Call | app/cloudunderroof/middleware.py:9-21 | the request is updated in place to its Authenticate state, and the downstream response for that state is returned unchanged |
| Serializer.Merge | app/house/serializer.py:41-49 | each of the five fields takes the validated value when its key is present and keeps the old one otherwise; the password and the profile are untouched |
| Serializer.MergeNothing | app/house/serializer.py:43-47 | an update with empty validated data leaves the user unchanged |
| Serializer.MergeIdempotent | app/house/serializer.py:41-49 | applying the same update twice gives the result of applying it once |
| Serializer.MergeComposes | app/house/serializer.py:41-49 | two updates in a row equal one update whose later keys win |
| Serializer.User.constructor | app/house/serializer.py:41 | the instance holds exactly the given user's fields |
| Serializer.User.Update | app/house/serializer.py:41-48 | the instance's new state is Merge of its old state and the validated data |
| Serializer.User.SetPassword | app/house/api/profile_me.py:84 | only the password changes, to the hash of the raw password |
| Serializer.PresenceErrors | app/house/serializer.py:52-56 | a required non-blank field has no error exactly when it is present and not blank after stripping |
| Serializer.UsernameErrors | app/house/serializer.py:52-55 | no error exactly when the stripped username is present, not blank, not taken and free of NUL; Required exactly when it is missing, UsernameTaken exactly when a filled name is taken, NullCharacters exactly when a filled name holds NUL |
| Serializer.PasswordErrors | app/house/serializer.py:56 | no error exactly when the stripped password is present, not blank, at least 8 characters long and free of NUL; Required, PasswordTooShort and NullCharacters each exactly in its case |
| Serializer.EmailErrors | app/house/serializer.py:57 | no error exactly when the email is missing or blank, or free of NUL and accepted by the email validator; it is never required |
| Serializer.RegisterErrors | app/house/serializer.py:51-57 | no field error exactly when the username is filled, not taken and NUL-free, the password is filled, at least 8 characters and NUL-free, and the email is missing, blank, or NUL-free and valid |
| Serializer.ErrorsByField | app/house/serializer.py:51-57 | every field's errors are reported in full, under that field, whatever the other fields hold |
| Serializer.ValidateRegistration | app/house/serializer.py:51-57 | validation succeeds exactly when RegisterErrors is empty, and then yields the stripped username and password and the validated email; a valid username is non-empty, not taken and free of NUL, a valid password has at least 8 characters and no NUL; a failure reports every field error |
| Serializer.ShortPasswordRefused | app/house/serializer.py:56 | a password shorter than 8 characters is refused as too short or as blank, whatever the other fields hold |
| Serializer.Create | app/house/serializer.py:59-66 | the insert fails exactly when the normalised username is already stored; otherwise exactly one user is appended, with the normalised username, the email defaulting to '' and the hashed password, the new user gets a profile and existing profiles are kept |
| Serializer.CreateKeepsUsernamesUnique | app/house/serializer.py:63 | the stored usernames stay distinct after a create |
| Serializer.NormalisedCollisionFails | app/house/serializer.py:52-63 | a username the uniqueness validator passes, because it differs from every stored name as submitted, still fails at the insert when it normalises to a stored name |
| Serializer.CreateMakesProfile | app/house/serializer.py:63-65 | after a successful create the new user has a default profile and every profile still belongs to a user |
| Serializer.MissingEmailIsEmpty | app/house/serializer.py:62 | a registration without an email, whose normalised name is not stored, is created with the normalised empty string, which is '' for a normaliser that leaves '' alone, as Django's normalize_email does |
| ProfileMe.PasswordGuard | app/house/api/profile_me.py:53-81 | each outcome of the password checks holds if and only if its condition does, in the source's order: current required, new required, current correct, new at least 6 characters |
| ProfileMe.PatchMessage | app/house/api/profile_me.py:92-94 | the success message mentions the password exactly when new_password was given |
| ProfileMe.ProfilePhoto | app/house/api/profile_me.py:23-29 | a user whose profile has a non-empty image gets exactly absoluteUrl of it, which is null when building the URL fails; a missing profile, a missing image or an empty one gives null |
| ProfileMe.Get | app/house/api/profile_me.py:16-31 | GET answers 200 with the user's representation plus ProfilePhoto |
| ProfileMe.Put | app/house/api/profile_me.py:33-46 | an invalid full update answers 400 and changes nothing; a valid one merges the update and answers 200 with the success message |
| ProfileMe.AfterPasswordStep | app/house/api/profile_me.py:83-85 | the password becomes the hash of the new one exactly for an allowed change, and stays otherwise; no other field changes |
| ProfileMe.Patch | app/house/api/profile_me.py:48-103 | a refusal answers 400 with its message and changes nothing; otherwise the password step and then the partial update are applied; a serializer failure keeps the new password |
| ProfileMe.PasswordChangesOnlyWhenAllowed | app/house/api/profile_me.py:56-85 | unless the guard allows the change, the password step leaves the user unchanged |
| ProfileMe.NoPasswordFieldsNoCheck | app/house/api/profile_me.py:56 | with both fields empty or absent the password is kept, whatever check_password would say |
| Tags.GetQueryset | app/house/api/tags.py:23-39 | only live tags; an empty novo, or one int() refuses (not an integer, or more than 4300 digits), gives all live tags; an integer novo gives exactly the live tags created since the cutoff; an overflow is an error |
| Tags.ParseLimit | app/house/api/tags.py:68-72 | the limit is the parameter's integer value, or 10 when it is absent or int() refuses it (not an integer, or more than 4300 digits) |
| Tags.ParseLimitReadsInteger | app/house/api/tags.py:69-72 | every integer of at most 4300 digits, as Python prints it, is read back as that limit; a longer one gives 10 |
| Tags.LongLimitIsDefault | app/house/api/tags.py:68-72 | a limit of digits of more than 4300 digits makes int() raise ValueError, so the limit is 10 |
| Tags.LongNovoIgnored | app/house/api/tags.py:28-37 | a novo of more than 4300 digits raises a ValueError that is caught, so every live tag is listed |
| Tags.Ranked | app/house/api/tags.py:74 | succeeds exactly when the queryset does and the limit is not negative, and then gives min(limit, count) live tags of the table, sorted by the key largest first and drawn from the queryset, no tag left out ranking above one kept; a negative limit is an error, and an overflow the queryset's error |
| Tags.Populares | app/house/api/tags.py:61-76 | succeeds exactly when the queryset does and the limit is not negative, and then gives min(limit, count) live tags of the table, sorted by countUses largest first, no tag left out used more than one kept; otherwise the error of Ranked |
| Tags.RecentesUsadas | app/house/api/tags.py:78-93 | succeeds exactly when the queryset does and the limit is not negative, and then gives min(limit, count) live tags of the table, sorted by lastUsed_at latest first, no tag left out used later than one kept; otherwise the error of Ranked |
| Tags.DefaultLimitIsTen | app/house/api/tags.py:68-74 | without novo, an absent or non-numeric limit gives exactly the ten most used live tags whenever ten exist |
| Tags.GetSerializerClass | app/house/api/tags.py:41-45 | TagCreateSerializer is chosen if and only if the action is create |
| Text.PySigned | app/house/api/tags.py:31 | a stripped string of digit groups after its sign is accepted exactly when it has at most 4300 digits; an accepted string ends in a digit |
| Text.PyInt | app/house/api/tags.py:31 | a string int() accepts is non-empty after stripping, ends in a digit, and has at most 4300 digits |
| Text.Utf16Length | app/static/js/profile-edit.js:128 | JavaScript's length lies between the number of characters and twice it, and equals it exactly when no character lies beyond U+FFFF |
| Text.PyIntOfIntToString | app/house/api/tags.py:70 | int() reads back every integer Python writes that has at most 4300 digits, and refuses the longer ones |
| Seqs.KeepInOrder | app/house/migrations/0013_add_ext_files_config.py:30 | the rows a filter keeps are a subsequence of the table: they keep their order |
| Seqs.TopN | app/house/api/tags.py:74 | at most n elements, sorted largest first, a sub-multiset of the input, no element left out having a larger key than one kept |
| PopulateTagUpdatedAt.Backfill | app/house/migrations/0007_populate_tag_updated_at.py:6-9 | the value the forward step means to store: a row with a NULL updated_at gets created_at, or the clock when that is NULL too; other rows and other columns are untouched |
| PopulateTagUpdatedAt.AutoNowSave | app/house/migrations/0006_fix_tag_updated_at.py:15 | a save stores its own time in updated_at and changes nothing else |
| PopulateTagUpdatedAt.Stored | app/house/migrations/0007_populate_tag_updated_at.py:8-10 | what a row holds after the loop: a row with a NULL updated_at holds the time of its save, other rows are unchanged, and only updated_at changes |
| PopulateTagUpdatedAt.StoredIgnoresCreatedAt | app/house/migrations/0007_populate_tag_updated_at.py:9-10 | a row created at 10 with a NULL updated_at and saved at 99 ends with 99, where Backfill gives 10 |
| PopulateTagUpdatedAt.StoredIsBackfillWhen | app/house/migrations/0007_populate_tag_updated_at.py:8-10 | the stored row is the intended one exactly when the row already had an updated_at, has no created_at, or was created at the time of its save |
| PopulateTagUpdatedAt.Cleared | app/house/migrations/0007_populate_tag_updated_at.py:16 | updated_at becomes NULL and nothing else changes |
| PopulateTagUpdatedAt.PopulateUpdatedAt | app/house/migrations/0007_populate_tag_updated_at.py:5-10 | every row of the array ends as Stored of its old value, each row with its own clock reading |
| PopulateTagUpdatedAt.ReversePopulate | app/house/migrations/0007_populate_tag_updated_at.py:13-16 | every row of the array ends as Cleared of its old value |
| PopulateTagUpdatedAt.ForwardFillsEveryRow | app/house/migrations/0007_populate_tag_updated_at.py:8-10 | after the forward step no row has a NULL updated_at, a row that had one holds its save time, only that column changed, and rows that had a value are unchanged |
| PopulateTagUpdatedAt.ReverseForgetsForward | app/house/migrations/0007_populate_tag_updated_at.py:5-16 | reverse after forward equals reverse alone |
| PopulateTagUpdatedAt.ForwardThenReverseLosesTimestamps | app/house/migrations/0007_populate_tag_updated_at.py:13-16 | forward then reverse is not the identity: a row that had an updated_at loses it |
| ExtFilesConfig.ExtensionsHaveOneCategory | app/house/migrations/0013_add_ext_files_config.py:10-18 | no extension is listed under two categories, nor twice under one |
| ExtFilesConfig.IndexOfName | app/house/migrations/0013_add_ext_files_config.py:21-22 | the position found holds the name and no earlier row does; None means no row has the name |
| ExtFilesConfig.UniqueRowFound | app/house/migrations/0013_add_ext_files_config.py:21-22 | in a table with unique names, the row of a name is the one the lookup finds |
| ExtFilesConfig.UpdateOrCreate | app/house/migrations/0013_add_ext_files_config.py:21-24 | names stay unique, a row with the name and the new config exists afterwards, other rows are kept, and a row is added only when none existed |
| ExtFilesConfig.UpdateOrCreateIdempotent | app/house/migrations/0013_add_ext_files_config.py:21-24 | running the forward step twice at the same time gives the table that running it once does |
| ExtFilesConfig.UpdateReplacesInPlace | app/house/migrations/0013_add_ext_files_config.py:21-24 | an existing row keeps its place and its creation time; only its config and updated_at change |
| ExtFilesConfig.DeleteNamed | app/house/migrations/0013_add_ext_files_config.py:30 | no ext_files row remains, every other row is kept with its multiplicity, and the rows kept are a subsequence of the table, in its order |
| ExtFilesConfig.DeleteWithoutRowIsIdentity | app/house/migrations/0013_add_ext_files_config.py:27-30 | the reverse step on a table without an ext_files row changes nothing |
| ExtFilesConfig.ConfigurationTable.constructor | app/house/migrations/0013_add_ext_files_config.py:8 | the table starts with the given rows under the unique-name constraint |
| ExtFilesConfig.ConfigurationTable.AddExtFilesConfiguration | app/house/migrations/0013_add_ext_files_config.py:6-24 | the table keeps unique names and holds the ext_files row with the fixed mapping |
| ExtFilesConfig.ConfigurationTable.ReverseExtFilesConfiguration | app/house/migrations/0013_add_ext_files_config.py:27-30 | the table keeps unique names, loses its ext_files row and keeps every other row |
| Cookies.FirstEntry | app/static/js/header.js:5-10 | the position found holds an entry of the name and no earlier piece does; None means no piece does |
| Cookies.PieceTest | app/static/js/header.js:7 | both scripts' tests on a trimmed piece mean "starts with name=", and the text after it is the entry's value |
| Cookies.RawCookie | app/static/js/login.js:106-118 | None exactly when no trimmed piece is an entry of the name; otherwise the value of the first piece that is |
| Cookies.DecodedCookie | app/static/js/header.js:1-14 | null exactly for an empty cookie string or no entry; otherwise the decoded value of the first entry, or the decoding error |
| Cookies.EmptyCookieIsNull | app/static/js/header.js:3 | both lookups give null on an empty cookie string |
| Cookies.DecodedIsDecodeOfRaw | app/static/js/header.js:7-8 | where an entry exists, the decoding lookup is decode applied to the raw lookup |
| Cookies.OtherNameIsNoEntry | app/static/js/header.js:7 | a cookie whose name merely starts with the looked-for name is not its entry |
| Cookies.OwnEntry | app/static/js/login.js:112-113 | the entry name=value matches name and yields exactly value |
| Cookies.LeadingSpaceIgnored | app/static/js/header.js:6 | spaces before a piece do not change the trimmed pieces |
| Jar.Lookup | app/static/js/login.js:106-118 | a value found belongs to a cookie of that name in the jar; None means the jar has no cookie of that name |
| Jar.Put | app/static/js/login.js:102 | the stored cookie is found afterwards, other names read as before, the jar grows only for a new name, and nothing else is added |
| Jar.RemoveNamed | app/static/js/header.js:17 | no cookie of the name remains, other names read as before, and nothing is added |
| Jar.ParseCookiePair | app/static/js/login.js:102 | a parsed cookie has a non-empty name |
| Jar.AssignmentPieces | app/static/js/login.js:102 | an assignment splits on ';' into name=value and the three attributes, each after one space |
| Jar.ParseAssignment | app/static/js/login.js:102 | the browser reads back exactly the name and value of a plain cookie's assignment |
| Jar.AssignStores | app/static/js/login.js:102 | an assignment with a future expiry stores the cookie, replacing one of the same name |
| Jar.AssignExpires | app/static/js/header.js:17 | an assignment with a past expiry evicts every cookie of the name |
| Jar.SplitHeader | app/static/js/login.js:108 | document.cookie splits on ';' into the first entry and each later entry after one space |
| Browser.PiecesOfHeader | app/static/js/login.js:108-111 | the trimmed pieces of document.cookie are exactly the entries of the jar |
| Browser.FindEntryOfEntries | app/static/js/login.js:108-117 | the first entry of a name among the jar's entries carries exactly the value the jar holds for it |
| Browser.RawCookieReadsJar | app/static/js/login.js:106-118 | window.getCookie reads from document.cookie exactly the value the jar holds for a name without '=' |
| Browser.DecodedCookieReadsJar | app/static/js/header.js:1-14 | header.js's getCookie gives null when the jar has no cookie of the name, and otherwise the decoded value or the decoding error |
| Browser.BrowserState.AssignCookie | app/static/js/login.js:102 | writing document.cookie changes the jar as AfterAssignment says and leaves localStorage alone |
| Browser.BrowserState.SetItem | app/static/js/login.js:50-51 | localStorage maps the key to the value afterwards and the jar is unchanged |
| Browser.BrowserState.RemoveItem | app/static/js/header.js:26-27 | the key is gone from localStorage and the jar is unchanged |
| Header.GetCookie | app/static/js/header.js:1-14 | the loop returns DecodedCookie; profile-edit.js:12-25 is the same function |
| Header.TestPiece | app/static/js/header.js:7-8 | the substring test holds exactly for an entry of name, and the text after name + '=' is then that entry's value |
| Header.TokenNamesPlain | app/static/js/header.js:22-23 | both token names are plain cookie names, and the date of deleteCookie holds no ';' |
| Header.DeletionEvicts | app/static/js/header.js:17 | deleteCookie's assignment evicts every cookie of a plain name |
| Header.DeleteCookie | app/static/js/header.js:16-18 | the jar changes by deleteCookie's assignment and localStorage does not change |
| Header.ClearTokens | app/static/js/header.js:99-102 | the jar is the old one after the two deleteCookie assignments, access then refresh, at every clock value; for a clock at or after the epoch both tokens leave the jar; both leave localStorage, and nothing else changes |
| Header.Logout | app/static/js/header.js:20-31 | the jar is the old one after both deleteCookie assignments at every clock value, so afterwards (clock at or after the epoch) neither token is in the jar; neither is in localStorage, and every other cookie and key is kept |
| Header.EvictedUnreadable | app/static/js/header.js:16-18 | once a name is evicted, neither getCookie finds it |
| Header.ClearedTokensUnreadable | app/static/js/header.js:20-27 | after clearing, no lookup of document.cookie finds either token |
| Header.ChooseToken | app/static/js/header.js:36 | a non-empty cookie value wins, else a non-empty stored value, else no token; a decoding error aborts |
| Header.CookieTokenWins | app/static/js/header.js:36 | localStorage does not matter when the cookie holds a non-empty token |
| Header.TokenExactly | app/static/js/header.js:36-38 | there is a token if and only if the cookie or localStorage holds a non-empty one |
| Header.AccessToken | app/static/js/header.js:36 | the token read is ChooseToken of the decoded cookie and the stored value |
| Header.PhotoUrlOf | app/static/js/header.js:69-78 | the result always starts with "http" or "/": the default avatar for a missing or empty photo, the photo unchanged when it starts with "http" or "/", else the photo under /media/ |
| Header.PhotoUrl | app/static/js/header.js:69-78 | the assignments build exactly PhotoUrlOf |
| Header.DisplayName | app/static/js/header.js:66 | never empty: first_name, else username, else 'Usuário' |
| Header.LoadHeader | app/static/js/header.js:34-119 | a decoding error stops the handler; no token gives the login link; a 2xx answer gives the user menu with DisplayName and PhotoUrlOf of its fields; a 401 applies both deleteCookie assignments to the jar (evicting both tokens at a clock at or after the epoch), removes both from localStorage and reloads; any other answer or failure gives the login link; only a 401 changes browser state |
| Login.ExpiryMs | app/static/js/login.js:100 | the expiry is in the future exactly when days is positive |
| Login.SetCookie | app/static/js/login.js:98-103 | the jar changes by the assignment name=value; expires=...; path=/; SameSite=Lax, which stores a plain cookie for a positive number of days |
| Login.PutKeepsPlain | app/static/js/login.js:46-47 | storing a plain token keeps every cookie of the jar plain |
| Login.LoginTokensReadBack | app/static/js/login.js:46-47 | after both setCookie calls, window.getCookie reads back both tokens, and header.js's getCookie reads back the decoded access token |
| Login.ErrorMessage | app/static/js/login.js:34-62 | never empty: the rejection's detail, else 'Erro ao fazer login'; for a thrown error, its message, else the fallback text |
| Login.SubmitLogin | app/static/js/login.js:9-67 | on success, the jar is the old one after the access then the refresh setCookie assignment, for any tokens and any date text, which for plain tokens puts both cookies in the jar; both values go into localStorage; on failure, the error message is shown and nothing is stored |
| Login.GetCookieRaw | app/static/js/login.js:106-118 | the loop returns RawCookie, the raw text of the first entry, or null |
| Login.TestPieceRaw | app/static/js/login.js:112-113 | indexOf(nameEQ) === 0 holds exactly for an entry of name, and substring(nameEQ.length) is then that entry's value |
| Login.AlreadyLoggedIn | app/static/js/login.js:121-124 | the page redirects exactly when the cookie or localStorage holds a non-empty access token |
| Login.LoginSignsIn | app/static/js/login.js:42-51 | after a login with a non-empty token, the cookie alone signs the visitor in, even with localStorage cleared |
| Login.LogoutSignsOut | app/static/js/header.js:20-27 | after logout neither the cookie nor localStorage signs the visitor in |
| ProfileEdit.ImageCheck | app/static/js/profile-edit.js:73-88 | a file is accepted exactly when its type is JPEG, PNG, GIF or WebP and it is at most 5MB; a wrong type gets the type message |
| ProfileEdit.TypeCheckedFirst | app/static/js/profile-edit.js:75-88 | an oversized file of a wrong type gets the type message, not the size message |
| ProfileEdit.PasswordFieldsCheck | app/static/js/profile-edit.js:119-136 | passes exactly when all three fields are empty, or when current and new are filled, new is long enough and equals the confirmation; each message in the source's order |
| ProfileEdit.PasswordCheck | app/static/js/profile-edit.js:128 | a passing new password is at least 6 UTF-16 code units long and equal to the confirmation |
| ProfileEdit.PasswordCheckCodePoints | app/static/js/profile-edit.js:119-136 | a passing new password is at least 6 characters long and equal to the confirmation |
| ProfileEdit.ChecksAgreeOnBmp | app/static/js/profile-edit.js:128 | the two counts agree on passwords without characters beyond U+FFFF |
| ProfileEdit.CodePointCheckStricter | app/static/js/profile-edit.js:128 | whatever the character count accepts, the code-unit count accepts too |
| ProfileEdit.FormData.constructor | app/static/js/profile-edit.js:144 | a new FormData is empty |
| ProfileEdit.FormData.Append | app/static/js/profile-edit.js:147 | append adds one entry at the end |
| ProfileEdit.Payload | app/static/js/profile-edit.js:144-160 | three profile entries, then the two password entries exactly when current and new are filled in, then the photo, last, exactly when one was chosen; only the photo is a file |
| ProfileEdit.BuildPayload | app/static/js/profile-edit.js:144-160 | the appends build exactly Payload |
| ProfileEdit.FieldOf | app/house/api/profile_me.py:53-54 | a value found is that of an entry of the key with no later entry of the key, as a QueryDict gives the last value of a repeated key; None means no entry has the key |
| ProfileEdit.FieldAt | app/house/api/profile_me.py:53-54 | with unique keys, the lookup of an entry's key gives that entry's value |
| ProfileEdit.PayloadKeys | app/static/js/profile-edit.js:147-149 | no key is sent twice, and the first three entries are the profile fields |
| ProfileEdit.PayloadFields | app/static/js/profile-edit.js:147-160 | the server reads the three profile fields as given and both password fields exactly when current and new are filled in; the form carries the photo exactly when one was chosen; no key is sent twice |
| ProfileEdit.ClientChecksCoverServer | app/static/js/profile-edit.js:119-136 | whatever passes the character-count check also passes the server's presence and length checks: the server keeps the password, changes it, or refuses only a wrong current password |
| ProfileEdit.EmojiPasswordRefusedByServer | app/static/js/profile-edit.js:128 | three emoji pass the check as written but are refused by the server's minimum of 6 |
| ProfileEdit.UpdateErrorText | app/static/js/profile-edit.js:172-192 | never empty: the error field, else message, else detail, else 'Erro ao atualizar perfil'; for a thrown error, its message, else the retry text |
| ProfileEdit.UpdateDoneText | app/static/js/profile-edit.js:178 | never empty: the answer's message, else 'Perfil atualizado com sucesso!' |
| ProfileEdit.ServerMessagesShown | app/static/js/profile-edit.js:170-178 | each of the server's password refusals reaches the user with the server's message; a PATCH success shows the server's message; field errors show the generic text |
| ProfileEdit.FieldText | app/static/js/profile-edit.js:58-61 | '' exactly for a missing, null or empty field, else the field's text |
| ProfileEdit.ProfilePage.constructor | app/static/js/profile-edit.js:2-9 | the page starts with empty fields, no selection and no message |
| ProfileEdit.ProfilePage.ShowError | app/static/js/profile-edit.js:213-222 | the error box shows the message, the status box is hidden, and no field changes |
| ProfileEdit.ProfilePage.PopulateForm | app/static/js/profile-edit.js:57-67 | every text field comes from the profile, '' when missing; the preview changes only when there is a photo |
| ProfileEdit.ProfilePage.LoadProfileData | app/static/js/profile-edit.js:33-54 | a loaded profile fills the text fields and replaces the preview only when there is a photo; a failure shows the load error and changes no field; the password fields, the selection and the file name never change |
| ProfileEdit.ProfilePage.SelectPhoto | app/static/js/profile-edit.js:70-98 | a refused file shows its error, hides the status box and clears the selection; an accepted one is selected and previewed with its name; a cancelled choice clears the selection; the preview and the file name change only for an accepted file, and the text fields never |
| ProfileEdit.ProfilePage.Submit | app/static/js/profile-edit.js:107-198 | the check as written (PasswordCheck) that fails shows its message and sends nothing; otherwise exactly Payload is sent; success shows the success text and clears the password fields; failure shows the error text; the profile fields, the photo selection, the preview and the file name never change, and the password fields stay unless the update succeeds |

## Left out

- **DOM and navigation.** HTML rendering, button states, the timers that hide messages or
  reload after 1.5 s or 1 s, redirects and reloads are left out. Where a script redirects
  or reloads, the model returns a value saying so.
- **Network.** `fetch` is not modelled. Each request is a parameter that gives the
  answer: a status and parsed fields, or a failure.
- **JSON types.** A JSON field that is not a string (a number, say) is not modelled.
- **Async timing.** Nothing else runs between the awaits.
- **FileReader.** It is modelled as producing its data URL at once.
- **Dates.** `Date.toUTCString` is a parameter. The browser's reading of the expiry date
  is a separate parameter, `expiresMs`, not a parse of that text.
- Login.SubmitLogin: both `setCookie` calls read one clock value. The source reads the clock
  once per call, and the browser's own clock again.
- **Cookie jar scope.** The jar keeps one host and the path `/`. Domain, Secure,
  HttpOnly, SameSite enforcement, size limits and cookies set by the server are not
  modelled.
- **Read-back lemmas.** They cover plain cookies only: no ';', '=' or space in the name,
  and no ';' or space in the value. JWTs are plain.
- **Token lookups.** A name holding '=' is outside the read-back lemmas because the
  scripts never look one up.
- **`decodeURIComponent`.** It is a parameter; its percent-decoding is not modelled.
- **Surrogate code points.** A Dafny string holds Unicode scalar values, so a lone
  surrogate cannot be represented. Two behaviours that depend on one are not modelled:
  the surrogate-character validator that every DRF `CharField` runs beside the NUL check,
  and a JavaScript string holding a lone surrogate, which `.length` counts as 1.
- Tags.Ranked: Django puts the slice bound into SQL `LIMIT`, and the database refuses a
  bound outside its integer range (a 64-bit integer in PostgreSQL and SQLite), so a huge
  `?limit=` ends in a server error. The model has no such range: for any non-negative
  limit that `int()` accepts it returns Ok. The same holds for `Tags.Populares` and
  `Tags.RecentesUsadas`, which call Ranked.
- **Python `int()`.** Only ASCII digits are modelled; Unicode decimal digits, which
  Python also accepts, are left out. The digit limit is the default of 4300; a limit
  changed with `sys.set_int_max_str_digits` is not modelled.
- **Django and DRF internals.** `Tags.Ranked` fixes the database's order of equal keys as
  table order. Left out:
  - SQL;
  - the ORM;
  - `SearchFilter` and `OrderingFilter`;
  - `TagViewSet.create` with `TagCreateSerializer`;
  - `EmailField`'s validator, which is a parameter;
  - `UniqueValidator`'s query, modelled as a set of names;
  - the password hasher.
- **The rest of the repository.** `views.py`, the `urls.py` files, the models and
  `FileSerializer` are outside this model.
- **Column constraints.** Migration 0006 declares `updated_at` with `auto_now=True` and
  without `null=True` (app/house/migrations/0006_fix_tag_updated_at.py:15), so the column
  is NOT NULL afterwards. The model does not enforce column constraints. On a database
  that enforces this one, no row has a NULL `updated_at` when 0007 runs, and the reverse
  step's `update(updated_at=None)` is refused on a non-empty table; the model clears the
  column as the code asks.
- **The photo on the server.** The form carries `profile_photo`, but PATCH reads only
  `current_password` and `new_password` itself (app/house/api/profile_me.py:53-54), and
  `UserProfileSerializer` has no `profile_photo` field and a read-only `profile`
  (app/house/serializer.py:28-39). The server therefore drops the photo, as
  `Serializer.Merge` does by leaving the profile untouched.
- **profile-edit.js tokens.** `getJWTToken` (app/static/js/profile-edit.js:28-30) reads the
  localStorage token for the Authorization header. It belongs to the request, which is a
  parameter, so it is not modelled.
- **profile-edit.js field lookups.** The fallback to `''` when a password field is missing
  from the page is not modelled; the fields are taken as present.

## Findings

| source | as written | input that shows it | evidently intended | confidence | as-written member | corrected member |
|---|---|---|---|---|---|---|
| app/static/js/profile-edit.js:128 | `newPassword.length < 6` counts UTF-16 code units. The server's `len(new_password)` counts characters (app/house/api/profile_me.py:77). | The new password "😀😀😀" (twice as confirmation, with a correct current password): the client accepts 6 code units and sends it; the server refuses it with 'A nova senha deve ter no mínimo 6 caracteres'. | Whatever passes the client's checks also passes the server's presence and length checks. | not executed | ProfileEdit.EmojiPasswordRefusedByServer | ProfileEdit.ClientChecksCoverServer |
| app/house/migrations/0007_populate_tag_updated_at.py:9-10 | The loop assigns `created_at or timezone.now()` and then calls `save(update_fields=['updated_at'])`. Migration 0006 gave the field `auto_now=True` (app/house/migrations/0006_fix_tag_updated_at.py:15), and auto_now overwrites the assigned value with the time of the save. | A row created at 10 with a NULL `updated_at`, saved at 99, ends with 99 instead of 10. | Each row gets its `created_at`, or the current date when that is NULL (the docstring, line 6). | not executed | PopulateTagUpdatedAt.StoredIgnoresCreatedAt | PopulateTagUpdatedAt.Backfill |
