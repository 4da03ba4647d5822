/** Logging out (cmd/logout.go): the GET that carries the stored session,
    and when the store is cleared afterwards. */
module Logout {

  import opened GoStrings
  import opened Wrappers
  import opened Url
  import opened Http
  import opened Cookie
  import Login

  /** The Cookie header of the logout request: the locale and the session. */
  function LogoutCookie(sid: string): string
  {
    LocaleCookie + "; " + SessionCookie + "=" + sid
  }

  /** What logoutHarbor does with what the store holds. */
  function LogoutOutcome(cfg: Config, token: Option<string>): Outcome<(), LoadError>
  {
    match token
    case None => Abort(NoSession)
    case Some(sid) => Send(Request(Get, URLGen(cfg, "/log_out"), Some(LogoutCookie(sid)), None))
  }

  /** logoutHarbor: load the session, stop when there is none, otherwise
      send the GET with it. The store is only read. */
  method LogoutHarbor(cfg: Config, store: SessionStore) returns (out: Outcome<(), LoadError>)
    ensures out == LogoutOutcome(cfg, store.token)
  {
    var targetURL := URLGen(cfg, "/log_out");
    var sid, err := store.Load();
    if err.Some? {
      return Abort(err.value);
    }
    out := Send(Request(Get, targetURL, Some(LogoutCookie(sid)), None));
  }

  /** The store after the logout callback: cleared when no transport error
      occurred, kept otherwise. */
  function SessionAfterLogout<E>(before: Option<string>, errs: seq<Option<E>>): Option<string>
  {
    if AnyError(errs) then before else None
  }

  /** logoutProc: stop at the first non-nil error, skipping nil entries;
      otherwise clear the store. */
  method LogoutProc<E>(errs: seq<Option<E>>, store: SessionStore)
    modifies store
    ensures store.token == SessionAfterLogout(old(store.token), errs)
  {
    for i := 0 to |errs|
      invariant forall k :: 0 <= k < i ==> errs[k].None?
    {
      if errs[i].Some? {
        return;
      }
    }
    store.Clean();
  }

  /** With nothing stored logout sends nothing (so its callback, the only
      place that clears, never runs); with a session it sends a GET to
      /log_out carrying exactly that session. */
  lemma LogoutNeedsSession(cfg: Config, token: Option<string>)
    ensures LogoutOutcome(cfg, token).Abort? <==> token.None?
    ensures token.Some? ==>
      var r := LogoutOutcome(cfg, token).request;
      r.call == Get && r.url == URLGen(cfg, "/log_out") && r.body == None &&
      r.cookie == Some(LogoutCookie(token.value))
  {
  }

  /** The clear is not unconditional: a transport error anywhere in the
      list keeps the session, nil entries count for nothing, and a list of
      nils only (or an empty one) clears it. */
  lemma LogoutClearIff<E>(before: Option<string>, errs: seq<Option<E>>)
    ensures SessionAfterLogout(before, errs) == None <==> before.None? || !AnyError(errs)
    ensures SessionAfterLogout(before, errs + [None]) == SessionAfterLogout(before, errs)
  {
    if AnyError(errs + [None]) {
      var k :| 0 <= k < |errs + [None]| && (errs + [None])[k].Some?;
      assert errs[k].Some?;
    }
    if AnyError(errs) {
      var k :| 0 <= k < |errs| && errs[k].Some?;
      assert (errs + [None])[k].Some?;
    }
  }

  /** The header logout sends is one the cookie parser reads the session
      back from: the locale part is skipped and the session part matches,
      for any id free of ';' that does not end in white space. */
  lemma LogoutCookieRoundTrip(sid: string)
    requires ';' !in sid
    requires sid == [] || !IsSpace(sid[|sid| - 1])
    ensures CookieVerdict(LogoutCookie(sid), SessionCookie) == Match(sid)
  {
    LocaleFacts();
    SessionNameFacts();
    SecondPartMatches(LocaleCookie, SessionCookie, sid);
  }

  /** Every session id the login callback saves meets the conditions of
      LogoutCookieRoundTrip, so logout hands back exactly the id login
      stored: the id comes from a ';'-free piece of a response cookie
      that ends in no white space once trimmed. */
  lemma SavedSessionLogsOut<E>(before: Option<string>, errs: seq<Option<E>>, cookies: seq<string>)
    requires !AnyError(errs) && FilterCookies(cookies, SessionCookie).Found?
    ensures var sid := Login.SessionAfterLogin(before, errs, cookies);
      sid.Some? && ';' !in sid.value && (sid.value == [] || !IsSpace(sid.value[|sid.value| - 1])) &&
      CookieVerdict(LogoutCookie(sid.value), SessionCookie) == Match(sid.value)
  {
    var sid := FilterCookies(cookies, SessionCookie).value;
    FoundValueIsClean(cookies, SessionCookie, sid);
    LogoutCookieRoundTrip(sid);
  }

  lemma LocaleFacts()
    ensures ';' !in LocaleCookie && !IsSpace(LocaleCookie[0]) && !IsSpace(LocaleCookie[|LocaleCookie| - 1])
    ensures PartVerdict(LocaleCookie, SessionCookie) == Skip
  {
    LocaleSplits();
    LocaleEnds();
    OtherNameSkips("harbor-lang", "zh-cn", SessionCookie);
  }

  lemma LocaleSplits()
    ensures LocaleCookie == "harbor-lang" + "=" + "zh-cn"
    ensures '=' !in "harbor-lang" && "harbor-lang" != SessionCookie
  {
  }

  lemma LocaleEnds()
    ensures ';' !in LocaleCookie && !IsSpace(LocaleCookie[0]) && !IsSpace(LocaleCookie[|LocaleCookie| - 1])
  {
  }

  lemma SessionNameFacts()
    ensures ';' !in SessionCookie && '=' !in SessionCookie && SessionCookie != [] && !IsSpace(SessionCookie[0])
  {
  }

  /** A cookie of two parts, a first one that the name skips and a second
      one name=v, has v as its verdict. */
  lemma SecondPartMatches(other: string, name: string, v: string)
    requires ';' !in other && ';' !in name && ';' !in v && '=' !in name
    requires other != [] && !IsSpace(other[0]) && !IsSpace(other[|other| - 1])
    requires name != [] && !IsSpace(name[0])
    requires v == [] || !IsSpace(v[|v| - 1])
    requires PartVerdict(other, name) == Skip
    ensures CookieVerdict(other + "; " + name + "=" + v, name) == Match(v)
  {
    var parts := Parts(other + "; " + name + "=" + v);
    TwoParts(other, name, v);
    TrimSpaceUnchanged(other);
    SessionPartMatches(name, v);
    var vs := PartVerdicts(parts, name);
    assert vs[0] == Skip && vs[1] == Match(v);
    var rest := vs[1..];
    assert rest[0] == Match(v);
    assert FirstDecisive(vs) == FirstDecisive(rest);
  }

  /** Such a cookie splits into the first part and " name=v". */
  lemma TwoParts(other: string, name: string, v: string)
    requires ';' !in other && ';' !in name && ';' !in v
    requires other != [] && !IsSpace(other[0]) && !IsSpace(other[|other| - 1])
    requires v == [] || !IsSpace(v[|v| - 1])
    ensures Parts(other + "; " + name + "=" + v) == [other, [' '] + (name + "=" + v)]
  {
    var session := [' '] + (name + "=" + v);
    var c := other + "; " + name + "=" + v;
    assert c == other + [';'] + session;
    assert c[0] == other[0];
    assert c[|c| - 1] == if v == [] then '=' else v[|v| - 1];
    TrimSpaceUnchanged(c);
    assert ';' !in session;
    SplitAfterPiece(other, session, ';');
    SplitNoSep(session, ';');
  }

  /** The second part, once trimmed, matches with v as its value. */
  lemma SessionPartMatches(name: string, v: string)
    requires '=' !in name && name != [] && !IsSpace(name[0])
    requires v == [] || !IsSpace(v[|v| - 1])
    ensures PartVerdict(TrimSpace([' '] + (name + "=" + v)), name) == Match(v)
  {
    var named := name + "=" + v;
    assert named[0] == name[0];
    assert named[|named| - 1] == if v == [] then '=' else v[|v| - 1];
    TrimSpaceUnchanged(named);
    assert TrimLeft([' '] + named) == TrimLeft(named);
    PartVerdictMatchIff(named, name, v);
  }
}
