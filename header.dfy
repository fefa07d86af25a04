/**
 * header.js: the page header reads the access token from the cookie or from
 * localStorage, loads the signed-in user's profile and shows the user's name and photo,
 * or a login link; logout and a 401 answer clear both tokens. profile-edit.js carries a
 * copy of the same getCookie.
 */
module Header {
  import opened Wrappers
  import opened Text
  import opened Cookies
  import opened Jar
  import opened Browser

  const AccessTokenName := "access_token"
  const RefreshTokenName := "refresh_token"
  /** The expiry date deleteCookie writes: the epoch, which is always in the past. */
  const EpochUtc := "Thu, 01 Jan 1970 00:00:00 UTC"
  const DefaultAvatar := "/static/img/default-avatar.svg"
  const MediaPrefix := "/media/"
  const AnonymousName := "Usuário"

  /**
   * The test getCookie applies to a trimmed piece,
   * cookie.substring(0, name.length + 1) === name + '=', and the text after it.
   */
  method TestPiece(cookie: string, name: string) returns (found: bool, text: string)
    ensures found == IsEntry(cookie, name)
    ensures found ==> text == EntryValue(cookie, name)
  {
    PieceTest(cookie, name);
    found := JsSubstring(cookie, 0, |name| + 1) == name + "=";
    text := JsSubstring(cookie, |name| + 1, |cookie|);
  }

  /**
   * getCookie: document.cookie split on ';', each piece trimmed, and the first piece
   * that starts with name + '=' decoded, where decode returns None when
   * decodeURIComponent would throw.
   */
  method GetCookie(documentCookie: string, name: string, decode: string -> Option<string>)
    returns (cookieValue: CookieValue)
    ensures cookieValue == DecodedCookie(documentCookie, name, decode)
  {
    cookieValue := Null;
    if documentCookie != "" {
      var cookies := Split(documentCookie, ';');
      var i := 0;
      while i < |cookies|
        invariant 0 <= i <= |cookies|
        invariant forall j | 0 <= j < i :: !IsEntry(JsTrim(cookies[j]), name)
      {
        var cookie := JsTrim(cookies[i]);
        var found, text := TestPiece(cookie, name);
        if found {
          RawCookieAt(documentCookie, name, i);
          var decoded := decode(text);
          cookieValue := if decoded.Some? then Found(decoded.value) else DecodeError;
          return;
        }
        MissNext(cookies, name, i);
        i := i + 1;
      }
      RawCookieNone(documentCookie, name);
    }
  }

  /** A name of lower-case letters and underscores, like both token names. */
  predicate LowerName(s: string) {
    s != "" && forall i | 0 <= i < |s| :: 'a' <= s[i] <= 'z' || s[i] == '_'
  }

  lemma LowerNamePlain(name: string)
    requires LowerName(name)
    ensures Plain(Cookie(name, ""))
  {
    forall i | 0 <= i < |name| ensures !IsJsSpace(name[i]) && name[i] != ';' && name[i] != '=' {
      assert 'a' <= name[i] <= 'z' || name[i] == '_';
    }
  }

  /** The two token names are plain cookie names, and deleteCookie's date holds no ';'. */
  lemma TokenNamesPlain()
    ensures Plain(Cookie(AccessTokenName, "")) && Plain(Cookie(RefreshTokenName, ""))
    ensures ';' !in EpochUtc
  {
    LowerNamePlain(AccessTokenName);
    LowerNamePlain(RefreshTokenName);
  }

  /** The assignment deleteCookie makes evicts the cookies of a plain name. */
  lemma DeletionEvicts(jar: seq<Cookie>, name: string, nowMs: int)
    requires Plain(Cookie(name, "")) && nowMs >= 0
    ensures AfterAssignment(jar, CookieAssignment(name, "", EpochUtc), 0, nowMs) == RemoveNamed(jar, name)
  {
    AssignExpires(jar, name, EpochUtc, 0, nowMs);
  }

  /** deleteCookie(name): assigns the empty value with an expiry at the epoch. */
  method DeleteCookie(browser: BrowserState, name: string, nowMs: int)
    modifies browser
    ensures browser.jar == AfterAssignment(old(browser.jar), CookieAssignment(name, "", EpochUtc), 0, nowMs)
    ensures browser.storage == old(browser.storage)
  {
    browser.AssignCookie(CookieAssignment(name, "", EpochUtc), 0, nowMs);
  }

  /** Removes both tokens from the cookies and from localStorage (the redirect is not modelled). */
  method ClearTokens(browser: BrowserState, nowMs: int)
    modifies browser
    ensures browser.jar == AfterAssignment(AfterAssignment(old(browser.jar), CookieAssignment(AccessTokenName, "", EpochUtc), 0, nowMs),
                                           CookieAssignment(RefreshTokenName, "", EpochUtc), 0, nowMs)
    ensures nowMs >= 0 ==> browser.jar == RemoveNamed(RemoveNamed(old(browser.jar), AccessTokenName), RefreshTokenName)
    ensures browser.storage == old(browser.storage) - {AccessTokenName, RefreshTokenName}
    ensures browser.GetItem(AccessTokenName).None? && browser.GetItem(RefreshTokenName).None?
    ensures nowMs >= 0 ==> Lookup(browser.jar, AccessTokenName).None? && Lookup(browser.jar, RefreshTokenName).None?
  {
    ghost var jar0 := browser.jar;
    DeleteCookie(browser, AccessTokenName, nowMs);
    DeleteCookie(browser, RefreshTokenName, nowMs);
    TokenNamesPlain();
    if nowMs >= 0 {
      DeletionEvicts(jar0, AccessTokenName, nowMs);
      DeletionEvicts(RemoveNamed(jar0, AccessTokenName), RefreshTokenName, nowMs);
    }
    browser.RemoveItem(AccessTokenName);
    browser.RemoveItem(RefreshTokenName);
    assert browser.storage == old(browser.storage) - {AccessTokenName} - {RefreshTokenName};
  }

  /** logout */
  method Logout(browser: BrowserState, nowMs: int)
    modifies browser
    ensures browser.jar == AfterAssignment(AfterAssignment(old(browser.jar), CookieAssignment(AccessTokenName, "", EpochUtc), 0, nowMs),
                                           CookieAssignment(RefreshTokenName, "", EpochUtc), 0, nowMs)
    ensures nowMs >= 0 ==> browser.jar == RemoveNamed(RemoveNamed(old(browser.jar), AccessTokenName), RefreshTokenName)
    ensures browser.storage == old(browser.storage) - {AccessTokenName, RefreshTokenName}
    ensures browser.GetItem(AccessTokenName).None? && browser.GetItem(RefreshTokenName).None?
  {
    ClearTokens(browser, nowMs);
  }

  /** Once a name is evicted from a plain jar, neither lookup of document.cookie finds it. */
  lemma EvictedUnreadable(jar: seq<Cookie>, name: string, decode: string -> Option<string>)
    requires '=' !in name && forall c | c in jar :: Plain(c)
    ensures RawCookie(CookieHeader(RemoveNamed(jar, name)), name).None?
    ensures DecodedCookie(CookieHeader(RemoveNamed(jar, name)), name, decode) == Null
  {
    var evicted := RemoveNamed(jar, name);
    RawCookieReadsJar(evicted, name);
    DecodedCookieReadsJar(evicted, name, decode);
  }

  /** After clearing, no lookup of document.cookie finds either token, if the jar was plain. */
  lemma ClearedTokensUnreadable(jar: seq<Cookie>, decode: string -> Option<string>)
    requires forall c | c in jar :: Plain(c)
    ensures var cleared := RemoveNamed(RemoveNamed(jar, AccessTokenName), RefreshTokenName);
      && RawCookie(CookieHeader(cleared), AccessTokenName).None?
      && RawCookie(CookieHeader(cleared), RefreshTokenName).None?
      && DecodedCookie(CookieHeader(cleared), AccessTokenName, decode) == Null
  {
    TokenNamesPlain();
    var once := RemoveNamed(jar, AccessTokenName);
    var cleared := RemoveNamed(once, RefreshTokenName);
    EvictedUnreadable(once, RefreshTokenName, decode);
    RawCookieReadsJar(cleared, AccessTokenName);
    DecodedCookieReadsJar(cleared, AccessTokenName, decode);
  }

  /** The outcome of getCookie('access_token') || localStorage.getItem('access_token'). */
  datatype TokenLookup = Token(value: string) | NoToken | Aborted

  /**
   * The token the page uses: a non-empty cookie value wins, otherwise the stored one; an
   * empty string counts as no token, and a cookie that fails to decode aborts the page
   * script.
   */
  function ChooseToken(cookie: CookieValue, stored: Option<string>): (r: TokenLookup)
    ensures r == Aborted <==> cookie == DecodeError
    ensures r.Token? ==> r.value != ""
    ensures cookie.Found? && cookie.value != "" ==> r == Token(cookie.value)
    ensures cookie != DecodeError && !(cookie.Found? && cookie.value != "") ==>
      r == if Truthy(stored) then Token(stored.value) else NoToken
  {
    if cookie == DecodeError then Aborted
    else if cookie.Found? && cookie.value != "" then Token(cookie.value)
    else if stored.Some? && stored.value != "" then Token(stored.value)
    else NoToken
  }

  /** localStorage is consulted only when the cookie gives nothing. */
  lemma CookieTokenWins(value: string, stored1: Option<string>, stored2: Option<string>)
    requires value != ""
    ensures ChooseToken(Found(value), stored1) == ChooseToken(Found(value), stored2) == Token(value)
  {
  }

  /** There is a token exactly when the cookie or localStorage holds a non-empty one. */
  lemma TokenExactly(cookie: CookieValue, stored: Option<string>)
    requires cookie != DecodeError
    ensures ChooseToken(cookie, stored).Token? <==> (cookie.Found? && cookie.value != "") || Truthy(stored)
  {
  }

  /** Reads the access token the way the DOMContentLoaded handler does. */
  method AccessToken(browser: BrowserState, decode: string -> Option<string>) returns (token: TokenLookup)
    ensures token == ChooseToken(DecodedCookie(browser.DocumentCookie(), AccessTokenName, decode),
                                 browser.GetItem(AccessTokenName))
  {
    var cookie := GetCookie(browser.DocumentCookie(), AccessTokenName, decode);
    if cookie == DecodeError {
      return Aborted;
    }
    if cookie.Found? && cookie.value != "" {
      return Token(cookie.value);
    }
    var stored := browser.GetItem(AccessTokenName);
    if stored.Some? && stored.value != "" {
      return Token(stored.value);
    }
    return NoToken;
  }

  /**
   * The photo URL of the header: the default avatar when profile_photo is empty or null,
   * the photo itself when it starts with "http" or "/", else the photo under /media/.
   * Either way it is absolute or rooted at the site.
   */
  function PhotoUrlOf(profilePhoto: Option<string>): (r: string)
    ensures StartsWith(r, "http") || StartsWith(r, "/")
    ensures !Truthy(profilePhoto) ==> r == DefaultAvatar
    ensures Truthy(profilePhoto) && (StartsWith(profilePhoto.value, "http") || StartsWith(profilePhoto.value, "/")) ==>
      r == profilePhoto.value
    ensures Truthy(profilePhoto) && !StartsWith(profilePhoto.value, "http") && !StartsWith(profilePhoto.value, "/") ==>
      r == MediaPrefix + profilePhoto.value
  {
    match profilePhoto
    case Some(photo) =>
      if photo == "" then
        assert DefaultAvatar[..1] == "/";
        DefaultAvatar
      else if StartsWith(photo, "http") || StartsWith(photo, "/") then photo
      else
        assert (MediaPrefix + photo)[..1] == "/";
        MediaPrefix + photo
    case None =>
      assert DefaultAvatar[..1] == "/";
      DefaultAvatar
  }

  /** Builds the photo URL step by step, as the handler does. */
  method PhotoUrl(profilePhoto: Option<string>) returns (photoUrl: string)
    ensures photoUrl == PhotoUrlOf(profilePhoto)
  {
    photoUrl := DefaultAvatar;
    if profilePhoto.Some? && profilePhoto.value != "" {
      var photo := profilePhoto.value;
      if StartsWith(photo, "http") {
        photoUrl := photo;
      } else {
        photoUrl := if StartsWith(photo, "/") then photo else MediaPrefix + photo;
      }
    }
  }

  /** The name the header shows: first_name, else username, else 'Usuário'; never empty. */
  function DisplayName(firstName: Option<string>, username: Option<string>): (r: string)
    ensures r != ""
    ensures Truthy(firstName) ==> r == firstName.value
    ensures !Truthy(firstName) && Truthy(username) ==> r == username.value
    ensures !Truthy(firstName) && !Truthy(username) ==> r == AnonymousName
  {
    if firstName.Some? && firstName.value != "" then firstName.value
    else if username.Some? && username.value != "" then username.value
    else AnonymousName
  }

  /** What fetch('/api/profile/me/') gives: a status and the parsed fields, or a network failure. */
  datatype ProfileFetch =
    | Fetched(status: int, firstName: Option<string>, username: Option<string>, profilePhoto: Option<string>)
    | FetchFailed

  /** What the header ends up showing. */
  datatype HeaderView =
    | LoginLink
    | UserMenu(userName: string, photoUrl: string)
    | Reloaded
    | Stopped

  /**
   * The DOMContentLoaded handler: no token gives the login link; a successful answer the
   * user's name and photo; a 401 clears both tokens and reloads; any other answer or a
   * failed request the login link. A cookie that fails to decode stops the handler.
   * fetchProfile is the request with the token as Bearer credential.
   */
  method LoadHeader(browser: BrowserState, decode: string -> Option<string>, fetchProfile: string -> ProfileFetch,
                    nowMs: int) returns (view: HeaderView)
    modifies browser
    ensures var token := ChooseToken(DecodedCookie(old(browser.DocumentCookie()), AccessTokenName, decode),
                                     old(browser.GetItem(AccessTokenName)));
      && (token == Aborted ==> view == Stopped)
      && (token == NoToken ==> view == LoginLink)
      && (token.Token? && fetchProfile(token.value).Fetched? && 200 <= fetchProfile(token.value).status <= 299 ==>
            view.UserMenu?
            && view.userName == DisplayName(fetchProfile(token.value).firstName, fetchProfile(token.value).username)
            && view.photoUrl == PhotoUrlOf(fetchProfile(token.value).profilePhoto))
      && (token.Token? && (fetchProfile(token.value).FetchFailed? ||
            (fetchProfile(token.value).status != 401 && !(200 <= fetchProfile(token.value).status <= 299))) ==>
            view == LoginLink)
      && (token.Token? && fetchProfile(token.value).Fetched? && fetchProfile(token.value).status == 401 ==>
            view == Reloaded
            && browser.storage == old(browser.storage) - {AccessTokenName, RefreshTokenName}
            && browser.jar == AfterAssignment(AfterAssignment(old(browser.jar), CookieAssignment(AccessTokenName, "", EpochUtc), 0, nowMs),
                                              CookieAssignment(RefreshTokenName, "", EpochUtc), 0, nowMs)
            && (nowMs >= 0 ==>
                  browser.jar == RemoveNamed(RemoveNamed(old(browser.jar), AccessTokenName), RefreshTokenName)))
      && (view != Reloaded ==> browser.jar == old(browser.jar) && browser.storage == old(browser.storage))
  {
    var token := AccessToken(browser, decode);
    if token == Aborted {
      return Stopped;
    }
    if token == NoToken {
      return LoginLink;
    }
    var response := fetchProfile(token.value);
    if response.FetchFailed? {
      return LoginLink;
    }
    if 200 <= response.status <= 299 {
      var userName := DisplayName(response.firstName, response.username);
      var photoUrl := PhotoUrl(response.profilePhoto);
      return UserMenu(userName, photoUrl);
    } else if response.status == 401 {
      ClearTokens(browser, nowMs);
      return Reloaded;
    }
    return LoginLink;
  }
}
