/** Logging in (cmd/login.go): where the password comes from, the form the
    login POST carries, and when the session id of the response is kept. */
module Login {

  import opened GoStrings
  import opened Wrappers
  import opened Url
  import opened Http
  import opened Cookie

  /** Why login stops before sending: the terminal read failed, or it gave
      an empty password. */
  datatype LoginError = TermError | PasswordRequired

  /** The password login goes on with: the flag when given, otherwise what
      the terminal read (term is None when the read failed). */
  function PasswordAfter(password: string, term: Option<string>): string
  {
    if password == "" && term.Some? && term.value != "" then term.value else password
  }

  /** The form body: principal and password, the password escaped by
      escape (url.QueryEscape, not modelled), the username as it is. */
  function LoginBody(username: string, password: string, escape: string -> string): string
  {
    EncodeQuery([("principal", username), ("password", escape(password))])
  }

  /** What loginHarbor does with the flags and the terminal read. */
  function LoginOutcome(cfg: Config, username: string, password: string, term: Option<string>,
                        escape: string -> string): Outcome<string, LoginError>
  {
    if password == "" && term.None? then Abort(TermError)
    else if password == "" && term.value == "" then Abort(PasswordRequired)
    else
      var pw := PasswordAfter(password, term);
      Send(Request(Post, URLGen(cfg, "/login"), Some(LocaleCookie), Some(LoginBody(username, pw, escape))))
  }

  /** The login flags; loginHarbor fills in the password from the terminal. */
  class Credentials {
    var username: string
    var password: string

    constructor (username: string, password: string)
      ensures this.username == username && this.password == password
    {
      this.username := username;
      this.password := password;
    }

    /** loginHarbor. */
    method LoginHarbor(cfg: Config, term: Option<string>, escape: string -> string)
      returns (out: Outcome<string, LoginError>)
      modifies this`password
      ensures password == PasswordAfter(old(password), term)
      ensures out == LoginOutcome(cfg, username, old(password), term, escape)
    {
      if password == "" {
        if term.None? {
          return Abort(TermError);
        }
        var passwd := term.value;
        if passwd == "" {
          return Abort(PasswordRequired);
        }
        password := passwd;
      }
      var targetURL := URLGen(cfg, "/login");
      out := Send(Request(Post, targetURL, Some(LocaleCookie), Some(LoginBody(username, password, escape))));
    }
  }

  /** The store after the login callback: the session id the filter finds
      when no transport error occurred, the old contents otherwise. */
  function SessionAfterLogin<E>(before: Option<string>, errs: seq<Option<E>>, cookies: seq<string>): Option<string>
  {
    if AnyError(errs) then before
    else match FilterCookies(cookies, SessionCookie)
      case Found(sid) => Some(sid)
      case Failed(_) => before
  }

  /** loginProc: stop at the first non-nil error, then filter the response
      cookies, then save the session id. */
  method LoginProc<E>(errs: seq<Option<E>>, cookies: seq<string>, store: SessionStore)
    modifies store
    ensures store.token == SessionAfterLogin(old(store.token), errs, cookies)
  {
    var i := 0;
    while i < |errs|
      invariant 0 <= i <= |errs|
      invariant forall k :: 0 <= k < i ==> errs[k].None?
    {
      if errs[i].Some? {
        return;
      }
      i := i + 1;
    }
    var sid, err := CookieFilter(cookies, SessionCookie);
    if err.Some? {
      return;
    }
    store.Save(sid);
  }

  /** Without a password flag the terminal decides: a failed or empty read
      aborts with no request. With the flag the terminal is never consulted. */
  lemma PasswordSource(cfg: Config, username: string, password: string, term: Option<string>, escape: string -> string)
    ensures LoginOutcome(cfg, username, password, term, escape).Abort? <==>
      password == "" && (term.None? || term.value == "")
    ensures password != "" ==>
      LoginOutcome(cfg, username, password, term, escape) == LoginOutcome(cfg, username, password, None, escape)
  {
  }

  /** The POST goes to /login with the locale cookie only, never a stored
      session, and its body carries the username as it is and the escaped
      password: it reads back as principal and password when the username
      holds no '&' (url.QueryEscape never writes one). */
  lemma LoginRequestShape(cfg: Config, username: string, password: string, term: Option<string>, escape: string -> string)
    requires forall s :: '&' !in escape(s)
    requires LoginOutcome(cfg, username, password, term, escape).Send?
    ensures var r := LoginOutcome(cfg, username, password, term, escape).request;
      var pw := PasswordAfter(password, term);
      && pw != ""
      && r.call == Post && r.url == URLGen(cfg, "/login") && r.cookie == Some(LocaleCookie)
      && r.body.Some?
      && ('&' !in username ==>
            ParseQuery(r.body.value) == [("principal", username), ("password", escape(pw))])
  {
    var pw := PasswordAfter(password, term);
    var ps := [("principal", username), ("password", escape(pw))];
    if '&' !in username {
      assert '=' !in "principal" && '&' !in "principal" && '=' !in "password" && '&' !in "password";
      ParseEncodeQuery(ps);
    }
  }

  /** Any transport error leaves the store as it was. */
  lemma ErrorKeepsSession<E>(before: Option<string>, errs: seq<Option<E>>, cookies: seq<string>)
    requires AnyError(errs)
    ensures SessionAfterLogin(before, errs, cookies) == before
  {
  }

  /** The store changes only to a session id that one response cookie
      carries as a part beegosessionID=<id>, and only when there was no
      error; when the cookie is not found or is malformed the store stays. */
  lemma SavedSessionComesFromCookie<E>(before: Option<string>, errs: seq<Option<E>>, cookies: seq<string>)
    ensures FilterCookies(cookies, SessionCookie).Failed? ==> SessionAfterLogin(before, errs, cookies) == before
    ensures !AnyError(errs) && FilterCookies(cookies, SessionCookie).Found? ==>
      SessionAfterLogin(before, errs, cookies) == Some(FilterCookies(cookies, SessionCookie).value)
    ensures SessionAfterLogin(before, errs, cookies) != before ==>
      var sid := SessionAfterLogin(before, errs, cookies).value;
      !AnyError(errs) &&
      exists i, k :: (0 <= i < |cookies| && 0 <= k < |Parts(cookies[i])| &&
                      TrimSpace(Parts(cookies[i])[k]) == SessionCookie + "=" + sid)
  {
    if SessionAfterLogin(before, errs, cookies) != before {
      FoundComesFromPart(cookies, SessionCookie, SessionAfterLogin(before, errs, cookies).value);
    }
  }
}
