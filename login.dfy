/**
 * login.js: the login form posts the credentials to /api/token/, stores the access token
 * for one day and the refresh token for seven, as cookies and in localStorage, and a
 * signed-in visitor is sent on at once. window.getCookie reads a cookie's raw text.
 */
module Login {
  import opened Wrappers
  import opened Text
  import opened Cookies
  import opened Jar
  import opened Browser
  import opened Header

  /** 24 * 60 * 60 * 1000 */
  const MillisPerDay := 86_400_000
  const AccessTokenDays := 1
  const RefreshTokenDays := 7
  const SuccessMsg := "Login realizado com sucesso! Redirecionando..."
  const RejectedMsg := "Erro ao fazer login"
  const FallbackErrorMsg := "Erro ao fazer login. Verifique suas credenciais."

  /** The instant setCookie gives as expiry: days after nowMs. */
  function ExpiryMs(days: int, nowMs: int): (r: int)
    ensures days > 0 ==> r > nowMs
    ensures days <= 0 ==> r <= nowMs
  {
    nowMs + days * MillisPerDay
  }

  /**
   * setCookie(name, value, days): the assignment name=value with the expiry date
   * toUtc(expiry), path=/ and SameSite=Lax; toUtc stands for Date.toUTCString.
   */
  method SetCookie(browser: BrowserState, name: string, value: string, days: int, nowMs: int, toUtc: int -> string)
    modifies browser
    ensures browser.jar ==
      AfterAssignment(old(browser.jar), CookieAssignment(name, value, toUtc(ExpiryMs(days, nowMs))), ExpiryMs(days, nowMs), nowMs)
    ensures Plain(Cookie(name, value)) && days > 0 && ';' !in toUtc(ExpiryMs(days, nowMs)) ==>
      browser.jar == Put(old(browser.jar), Cookie(name, value))
    ensures browser.storage == old(browser.storage)
  {
    var expires := ExpiryMs(days, nowMs);
    var expiresString := toUtc(expires);
    browser.AssignCookie(CookieAssignment(name, value, expiresString), expires, nowMs);
    if Plain(Cookie(name, value)) && days > 0 && ';' !in expiresString {
      AssignStores(old(browser.jar), Cookie(name, value), expiresString, expires, nowMs);
    }
  }

  /** The jar after both setCookie calls of a successful login, for plain tokens. */
  function LoggedInJar(jar: seq<Cookie>, access: string, refresh: string): seq<Cookie> {
    Put(Put(jar, Cookie(AccessTokenName, access)), Cookie(RefreshTokenName, refresh))
  }

  /** Storing a plain cookie keeps every cookie of the jar plain. */
  lemma PutKeepsPlain(jar: seq<Cookie>, c: Cookie)
    requires Plain(c) && forall x | x in jar :: Plain(x)
    ensures forall x | x in Put(jar, c) :: Plain(x)
  {
  }

  /**
   * After a login, document.cookie gives back both tokens, raw to window.getCookie and
   * decoded to header.js's getCookie, whatever the jar held before.
   */
  lemma LoginTokensReadBack(jar: seq<Cookie>, access: string, refresh: string, decode: string -> Option<string>)
    requires forall x | x in jar :: Plain(x)
    requires Plain(Cookie(AccessTokenName, access)) && Plain(Cookie(RefreshTokenName, refresh))
    ensures RawCookie(CookieHeader(LoggedInJar(jar, access, refresh)), AccessTokenName) == Some(access)
    ensures RawCookie(CookieHeader(LoggedInJar(jar, access, refresh)), RefreshTokenName) == Some(refresh)
    ensures decode(access).Some? ==>
      DecodedCookie(CookieHeader(LoggedInJar(jar, access, refresh)), AccessTokenName, decode) == Found(decode(access).value)
  {
    var once := Put(jar, Cookie(AccessTokenName, access));
    var both := LoggedInJar(jar, access, refresh);
    PutKeepsPlain(jar, Cookie(AccessTokenName, access));
    PutKeepsPlain(once, Cookie(RefreshTokenName, refresh));
    RawCookieReadsJar(both, AccessTokenName);
    RawCookieReadsJar(both, RefreshTokenName);
    DecodedCookieReadsJar(both, AccessTokenName, decode);
  }

  /**
   * The answer of POST /api/token/: a response with ok set and the two tokens, a response
   * without ok and its detail field (None when absent), or a request or JSON parse that
   * threw an error with the given message.
   */
  datatype TokenAnswer =
    | Issued(access: string, refresh: string)
    | Rejected(detail: Option<string>)
    | Failed(message: string)

  /** The message the form shows. */
  datatype LoginOutcome = LoggedIn(message: string) | LoginError(message: string)

  /**
   * The error message the catch block shows: the thrown Error's message, which for a
   * rejected login is the detail field or 'Erro ao fazer login', else the fallback text
   * when that message is empty.
   */
  function ErrorMessage(answer: TokenAnswer): (m: string)
    requires !answer.Issued?
    ensures m != ""
    ensures answer.Rejected? ==> m == if Truthy(answer.detail) then answer.detail.value else RejectedMsg
    ensures answer.Failed? ==> m == if answer.message != "" then answer.message else FallbackErrorMsg
  {
    var thrown := if answer.Rejected? then (if Truthy(answer.detail) then answer.detail.value else RejectedMsg)
      else answer.message;
    if thrown != "" then thrown else FallbackErrorMsg
  }

  /**
   * The submit handler: on an issued pair the two cookies (from one clock reading nowMs)
   * and the two localStorage entries, then the success message; otherwise the error
   * message, with nothing stored.
   */
  method SubmitLogin(browser: BrowserState, answer: TokenAnswer, nowMs: int, toUtc: int -> string)
    returns (outcome: LoginOutcome)
    modifies browser
    ensures !answer.Issued? ==>
      outcome == LoginError(ErrorMessage(answer)) && browser.jar == old(browser.jar) && browser.storage == old(browser.storage)
    ensures answer.Issued? ==> outcome == LoggedIn(SuccessMsg)
    ensures answer.Issued? ==>
      browser.storage == old(browser.storage)[AccessTokenName := answer.access][RefreshTokenName := answer.refresh]
    ensures answer.Issued? ==>
      browser.jar == AfterAssignment(
        AfterAssignment(old(browser.jar), CookieAssignment(AccessTokenName, answer.access, toUtc(ExpiryMs(AccessTokenDays, nowMs))),
                        ExpiryMs(AccessTokenDays, nowMs), nowMs),
        CookieAssignment(RefreshTokenName, answer.refresh, toUtc(ExpiryMs(RefreshTokenDays, nowMs))),
        ExpiryMs(RefreshTokenDays, nowMs), nowMs)
    ensures answer.Issued? && Plain(Cookie(AccessTokenName, answer.access)) && Plain(Cookie(RefreshTokenName, answer.refresh))
            && ';' !in toUtc(ExpiryMs(AccessTokenDays, nowMs)) && ';' !in toUtc(ExpiryMs(RefreshTokenDays, nowMs)) ==>
      browser.jar == LoggedInJar(old(browser.jar), answer.access, answer.refresh)
  {
    if !answer.Issued? {
      return LoginError(ErrorMessage(answer));
    }
    var accessToken := answer.access;
    var refreshToken := answer.refresh;
    SetCookie(browser, AccessTokenName, accessToken, AccessTokenDays, nowMs, toUtc);
    SetCookie(browser, RefreshTokenName, refreshToken, RefreshTokenDays, nowMs, toUtc);
    browser.SetItem(AccessTokenName, accessToken);
    browser.SetItem(RefreshTokenName, refreshToken);
    outcome := LoggedIn(SuccessMsg);
  }

  /**
   * The test window.getCookie applies to a trimmed piece, c.indexOf(nameEQ) === 0 with
   * nameEQ = name + '=', and the text after nameEQ.
   */
  method TestPieceRaw(cookie: string, name: string) returns (found: bool, text: string)
    ensures found == IsEntry(cookie, name)
    ensures found ==> text == EntryValue(cookie, name)
  {
    var nameEQ := name + "=";
    PieceTest(cookie, name);
    found := IndexOf(cookie, nameEQ) == 0;
    text := JsSubstring(cookie, |nameEQ|, |cookie|);
  }

  /** window.getCookie(name): the raw text of the first entry of name, or null. */
  method GetCookieRaw(documentCookie: string, name: string) returns (r: Option<string>)
    ensures r == RawCookie(documentCookie, name)
  {
    var cookies := Split(documentCookie, ';');
    var i := 0;
    while i < |cookies|
      invariant 0 <= i <= |cookies|
      invariant forall j | 0 <= j < i :: !IsEntry(JsTrim(cookies[j]), name)
    {
      var cookie := JsTrim(cookies[i]);
      var found, text := TestPieceRaw(cookie, name);
      if found {
        RawCookieAt(documentCookie, name, i);
        return Some(text);
      }
      MissNext(cookies, name, i);
      i := i + 1;
    }
    RawCookieNone(documentCookie, name);
    r := None;
  }

  /** Whether the page sends the visitor on: a non-empty access token in the cookie or in localStorage. */
  predicate SignedIn(documentCookie: string, stored: Option<string>) {
    Truthy(RawCookie(documentCookie, AccessTokenName)) || Truthy(stored)
  }

  /** The check on page load: getCookie('access_token') || localStorage.getItem('access_token'). */
  method AlreadyLoggedIn(browser: BrowserState) returns (redirect: bool)
    ensures redirect == SignedIn(browser.DocumentCookie(), browser.GetItem(AccessTokenName))
  {
    var token := GetCookieRaw(browser.DocumentCookie(), AccessTokenName);
    if Truthy(token) {
      return true;
    }
    var stored := browser.GetItem(AccessTokenName);
    redirect := Truthy(stored);
  }

  /**
   * A visitor who logged in with a non-empty plain access token is signed in by the cookie
   * alone, even if localStorage was cleared since.
   */
  lemma LoginSignsIn(jar: seq<Cookie>, access: string, refresh: string, stored: Option<string>)
    requires forall x | x in jar :: Plain(x)
    requires access != "" && Plain(Cookie(AccessTokenName, access)) && Plain(Cookie(RefreshTokenName, refresh))
    ensures SignedIn(CookieHeader(LoggedInJar(jar, access, refresh)), stored)
  {
    LoginTokensReadBack(jar, access, refresh, s => Some(s));
  }

  /** After logout neither the cookie nor localStorage signs the visitor in. */
  lemma LogoutSignsOut(jar: seq<Cookie>, storage: map<string, string>)
    requires forall x | x in jar :: Plain(x)
    ensures var cleared := RemoveNamed(RemoveNamed(jar, AccessTokenName), RefreshTokenName);
      var left := storage - {AccessTokenName, RefreshTokenName};
      !SignedIn(CookieHeader(cleared), if AccessTokenName in left then Some(left[AccessTokenName]) else None)
  {
    ClearedTokensUnreadable(jar, s => Some(s));
  }
}
