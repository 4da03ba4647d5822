/** The session cookie (utils/cookie.go): picking the session id out of the
    cookies a login response sets, and the one-slot store that keeps it
    between runs. */
module Cookie {

  import opened GoStrings
  import opened Wrappers

  /** errMalCookies and errCookiesNotAvailable. */
  datatype CookieError = MalCookies | CookiesNotAvailable

  /** What CookieFilter returns: a value, or one of its two errors (the
      value beside an error is always ""). */
  datatype Lookup = Found(value: string) | Failed(error: CookieError)

  /** What one trimmed part of a cookie says about the wanted name. */
  datatype Verdict = Skip | Match(value: string) | Malformed

  /** A part without '=' is malformed when it is the wanted name itself and
      skipped otherwise; a part with '=' is split at its first '=' and
      matches when the text before it is exactly the wanted name. */
  function PartVerdict(part: string, filter: string): Verdict
  {
    var j := Index(part, '=');
    if j < 0 then (if part == filter then Malformed else Skip)
    else if part[..j] == filter then Match(part[j + 1..]) else Skip
  }

  /** The parts of one serialized cookie: trimmed, then split on ';'. */
  function Parts(cookie: string): seq<string>
  {
    Split(TrimSpace(cookie), ';')
  }

  /** The verdict of each part of a cookie, trimmed, in order. */
  function PartVerdicts(parts: seq<string>, filter: string): (vs: seq<Verdict>)
    ensures |vs| == |parts|
    ensures forall k {:trigger vs[k]} :: 0 <= k < |parts| ==> vs[k] == PartVerdict(TrimSpace(parts[k]), filter)
  {
    seq(|parts|, k requires 0 <= k < |parts| => PartVerdict(TrimSpace(parts[k]), filter))
  }

  /** The first verdict that is not Skip decides; Skip when all skip. */
  function FirstDecisive(vs: seq<Verdict>): Verdict
  {
    if |vs| == 0 then Skip else if vs[0].Skip? then FirstDecisive(vs[1..]) else vs[0]
  }

  /** A cookie that is a single empty part is malformed before any part is
      looked at; otherwise its first decisive part decides. */
  function CookieVerdict(cookie: string, filter: string): Verdict
  {
    var parts := Parts(cookie);
    if |parts| == 1 && parts[0] == "" then Malformed else FirstDecisive(PartVerdicts(parts, filter))
  }

  /** The reference reading of CookieFilter: cookies in order, the first one
      that decides gives the result, and none deciding means the cookie is
      not available. */
  function FilterCookies(cookies: seq<string>, filter: string): Lookup
  {
    if |cookies| == 0 then Failed(CookiesNotAvailable)
    else
      match CookieVerdict(cookies[0], filter)
      case Skip => FilterCookies(cookies[1..], filter)
      case Match(v) => Found(v)
      case Malformed => Failed(MalCookies)
  }

  /** One step of the reference reading, at cookie i. */
  lemma FilterCookiesAt(cookies: seq<string>, i: nat, filter: string)
    requires i < |cookies|
    ensures var parts := Split(TrimSpace(cookies[i]), ';');
      FilterCookies(cookies[i..], filter) ==
        if |parts| == 1 && parts[0] == "" then Failed(MalCookies)
        else match FirstDecisive(PartVerdicts(parts, filter))
          case Skip => FilterCookies(cookies[i + 1..], filter)
          case Match(v) => Found(v)
          case Malformed => Failed(MalCookies)
  {
    assert cookies[i..][0] == cookies[i] && cookies[i..][1..] == cookies[i + 1..];
  }

  /** The inner loop of CookieFilter over the parts of one cookie: the
      verdict of the first part that decides, or Skip. */
  method ScanParts(parts: seq<string>, filter: string) returns (v: Verdict)
    ensures v == FirstDecisive(PartVerdicts(parts, filter))
  {
    ghost var vs := PartVerdicts(parts, filter);
    var k := 0;
    while k < |parts|
      invariant 0 <= k <= |parts|
      invariant FirstDecisive(vs) == FirstDecisive(vs[k..])
    {
      assert vs[k..][0] == vs[k] && vs[k..][1..] == vs[k + 1..];
      var part := TrimSpace(parts[k]);
      assert vs[k] == PartVerdict(part, filter);
      var j := Index(part, '=');
      if j < 0 {
        if part == filter {
          return Malformed;
        }
        k := k + 1;
        continue;
      }
      var name, val := part[..j], part[j + 1..];
      if name == filter {
        return Match(val);
      }
      k := k + 1;
    }
    return Skip;
  }

  /** utils.CookieFilter: the outer loop over the cookies, returning as soon
      as a cookie is blank or one of its parts decides. */
  method CookieFilter(cookies: seq<string>, filter: string) returns (value: string, err: Option<CookieError>)
    ensures err.None? ==> FilterCookies(cookies, filter) == Found(value)
    ensures err.Some? ==> value == "" && FilterCookies(cookies, filter) == Failed(err.value)
  {
    var i := 0;
    while i < |cookies|
      invariant 0 <= i <= |cookies|
      invariant FilterCookies(cookies, filter) == FilterCookies(cookies[i..], filter)
    {
      FilterCookiesAt(cookies, i, filter);
      var parts := Split(TrimSpace(cookies[i]), ';');
      if |parts| == 1 && parts[0] == "" {
        return "", Some(MalCookies);
      }
      var v := ScanParts(parts, filter);
      match v
      case Malformed => return "", Some(MalCookies);
      case Match(val) => return val, None;
      case Skip =>
      i := i + 1;
    }
    return "", Some(CookiesNotAvailable);
  }

  /** A part matches exactly when it is the wanted name (which then holds
      no '='), one '=', and the value: only the first '=' splits, so the
      value may hold more of them, and the name is compared as it stands,
      neither re-trimmed nor case-folded. */
  lemma PartVerdictMatchIff(part: string, filter: string, v: string)
    ensures PartVerdict(part, filter) == Match(v) <==> '=' !in filter && part == filter + "=" + v
  {
    if '=' !in filter && part == filter + "=" + v {
      IndexAfter(filter, '=', v);
      assert part[..|filter|] == filter;
      assert part[|filter| + 1..] == v;
    }
    if PartVerdict(part, filter) == Match(v) {
      var j := Index(part, '=');
      assert part == part[..j] + "=" + part[j + 1..];
    }
  }

  /** A part whose text before its first '=' is another name is skipped. */
  lemma OtherNameSkips(name: string, v: string, filter: string)
    requires '=' !in name && name != filter
    ensures PartVerdict(name + "=" + v, filter) == Skip
  {
    IndexAfter(name, '=', v);
    assert (name + "=" + v)[..|name|] == name;
  }

  /** A part is malformed exactly when it is the wanted name with no '='. */
  lemma PartVerdictMalformedIff(part: string, filter: string)
    ensures PartVerdict(part, filter) == Malformed <==> '=' !in part && part == filter
  {
  }

  /** A space before the '=' keeps a part from matching. */
  lemma NameIsNotRetrimmed(filter: string, v: string)
    requires '=' !in filter
    ensures PartVerdict(filter + " =" + v, filter) == Skip
  {
    var part := filter + " =" + v;
    IndexAfter(filter + " ", '=', v);
    assert part == (filter + " ") + "=" + v;
    assert part[..|filter| + 1] == filter + " ";
    assert |part[..|filter| + 1]| != |filter|;
  }

  /** The scan skips exactly when every verdict does. */
  lemma {:induction false} FirstDecisiveSkipIff(vs: seq<Verdict>)
    ensures FirstDecisive(vs) == Skip <==> forall k :: 0 <= k < |vs| ==> vs[k] == Skip
    decreases |vs|
  {
    if |vs| > 0 {
      FirstDecisiveSkipIff(vs[1..]);
      assert forall k :: 1 <= k < |vs| ==> vs[k] == vs[1..][k - 1];
    }
  }

  /** The first verdict that is not Skip is the result of the scan. */
  lemma {:induction false} FirstDecisiveAt(vs: seq<Verdict>, k: nat)
    requires k < |vs| && vs[k] != Skip
    requires forall m :: 0 <= m < k ==> vs[m] == Skip
    ensures FirstDecisive(vs) == vs[k]
    decreases k
  {
    if k > 0 {
      assert forall m :: 0 <= m < k - 1 ==> vs[1..][m] == vs[m + 1];
      FirstDecisiveAt(vs[1..], k - 1);
    }
  }

  /** Where a scan that did not skip stopped. */
  lemma {:induction false} DecisivePosition(vs: seq<Verdict>) returns (k: nat)
    requires FirstDecisive(vs) != Skip
    ensures k < |vs| && vs[k] == FirstDecisive(vs)
    decreases |vs|
  {
    if vs[0].Skip? {
      var m := DecisivePosition(vs[1..]);
      k := m + 1;
    } else {
      k := 0;
    }
  }

  /** The single-empty-part guard fires exactly for a cookie that is all
      white space, and such a cookie is malformed. */
  lemma EmptyCookieIsMalformed(cookie: string, filter: string)
    ensures (|Parts(cookie)| == 1 && Parts(cookie)[0] == "") <==> AllSpace(cookie)
    ensures AllSpace(cookie) ==> CookieVerdict(cookie, filter) == Malformed
  {
    SplitIsEmptyPiece(TrimSpace(cookie), ';');
    TrimSpaceEnds(cookie);
  }

  /** A cookie is skipped exactly when it is not blank and all its parts are. */
  lemma CookieSkipIff(cookie: string, filter: string)
    ensures CookieVerdict(cookie, filter) == Skip <==>
      !AllSpace(cookie) &&
      forall k :: 0 <= k < |Parts(cookie)| ==> PartVerdict(TrimSpace(Parts(cookie)[k]), filter) == Skip
  {
    var parts := Parts(cookie);
    var vs := PartVerdicts(parts, filter);
    EmptyCookieIsMalformed(cookie, filter);
    FirstDecisiveSkipIff(vs);
    if !AllSpace(cookie) {
      if forall k :: 0 <= k < |parts| ==> PartVerdict(TrimSpace(parts[k]), filter) == Skip {
        forall k | 0 <= k < |vs| ensures vs[k] == Skip {
        }
      }
      if forall k :: 0 <= k < |vs| ==> vs[k] == Skip {
        forall k | 0 <= k < |parts| ensures PartVerdict(TrimSpace(parts[k]), filter) == Skip {
          assert vs[k] == Skip;
        }
      }
    }
  }

  /** Scanning a + b: b is only looked at when nothing in a decides. */
  lemma {:induction false} FilterAppend(a: seq<string>, b: seq<string>, filter: string)
    ensures FilterCookies(a + b, filter) ==
      if FilterCookies(a, filter) == Failed(CookiesNotAvailable) then FilterCookies(b, filter)
      else FilterCookies(a, filter)
    decreases |a|
  {
    if |a| > 0 {
      assert (a + b)[0] == a[0] && (a + b)[1..] == a[1..] + b;
      FilterAppend(a[1..], b, filter);
    } else {
      assert a + b == b;
    }
  }

  /** Not available exactly when every cookie is skipped; in particular for
      no cookies at all. */
  lemma {:induction false} NotAvailableIff(cookies: seq<string>, filter: string)
    ensures FilterCookies(cookies, filter) == Failed(CookiesNotAvailable) <==>
      forall i :: 0 <= i < |cookies| ==> CookieVerdict(cookies[i], filter) == Skip
    decreases |cookies|
  {
    if |cookies| > 0 {
      NotAvailableIff(cookies[1..], filter);
      assert forall i :: 1 <= i < |cookies| ==> cookies[i] == cookies[1..][i - 1];
    }
  }

  /** Reaching a blank cookie ends the scan with errMalCookies, whatever the
      later cookies hold. */
  lemma BlankCookieStopsScan(before: seq<string>, cookie: string, after: seq<string>, filter: string)
    requires FilterCookies(before, filter) == Failed(CookiesNotAvailable)
    requires AllSpace(cookie)
    ensures FilterCookies(before + [cookie] + after, filter) == Failed(MalCookies)
  {
    EmptyCookieIsMalformed(cookie, filter);
    FilterAppend(before, [cookie] + after, filter);
    assert before + [cookie] + after == before + ([cookie] + after);
    assert ([cookie] + after)[0] == cookie;
  }

  /** The first decisive part of the first decisive cookie gives the result:
      its value when it is filter=value, errMalCookies when it is the bare
      name. Later parts and cookies are never looked at. */
  lemma FirstDecisivePartDecides(before: seq<string>, cookie: string, after: seq<string>, k: nat, filter: string)
    requires FilterCookies(before, filter) == Failed(CookiesNotAvailable)
    requires !AllSpace(cookie)
    requires k < |Parts(cookie)|
    requires forall m :: 0 <= m < k ==> PartVerdict(TrimSpace(Parts(cookie)[m]), filter) == Skip
    requires PartVerdict(TrimSpace(Parts(cookie)[k]), filter) != Skip
    ensures FilterCookies(before + [cookie] + after, filter) ==
      match PartVerdict(TrimSpace(Parts(cookie)[k]), filter)
      case Match(v) => Found(v)
      case _ => Failed(MalCookies)
  {
    EmptyCookieIsMalformed(cookie, filter);
    FirstDecisiveAt(PartVerdicts(Parts(cookie), filter), k);
    FilterAppend(before, [cookie] + after, filter);
    assert before + [cookie] + after == before + ([cookie] + after);
    assert ([cookie] + after)[0] == cookie;
  }

  /** A found value always comes from some part filter=value: the filter
      then holds no '='. */
  lemma {:induction false} FoundComesFromPart(cookies: seq<string>, filter: string, v: string)
    requires FilterCookies(cookies, filter) == Found(v)
    ensures '=' !in filter
    ensures exists i, k :: (0 <= i < |cookies| && 0 <= k < |Parts(cookies[i])| &&
      TrimSpace(Parts(cookies[i])[k]) == filter + "=" + v)
    decreases |cookies|
  {
    var parts := Parts(cookies[0]);
    if CookieVerdict(cookies[0], filter).Skip? {
      FoundComesFromPart(cookies[1..], filter, v);
      var i, k :| 0 <= i < |cookies[1..]| && 0 <= k < |Parts(cookies[1..][i])| &&
        TrimSpace(Parts(cookies[1..][i])[k]) == filter + "=" + v;
      assert cookies[1..][i] == cookies[i + 1];
    } else {
      var k := DecisivePosition(PartVerdicts(parts, filter));
      PartVerdictMatchIff(TrimSpace(parts[k]), filter, v);
    }
  }

  /** A value the filter finds holds no ';' and does not end in white
      space: it is the tail of a trimmed piece of a cookie split on ';'. */
  lemma FoundValueIsClean(cookies: seq<string>, filter: string, v: string)
    requires FilterCookies(cookies, filter) == Found(v)
    ensures ';' !in v && (v == [] || !IsSpace(v[|v| - 1]))
  {
    FoundComesFromPart(cookies, filter, v);
    var i, k :| 0 <= i < |cookies| && 0 <= k < |Parts(cookies[i])| &&
      TrimSpace(Parts(cookies[i])[k]) == filter + "=" + v;
    var p := Parts(cookies[i])[k];
    TrimSpaceKeepsOut(p, ';');
    TrimSpaceEnds(p);
    var t := TrimSpace(p);
    assert v == t[|t| - |v|..];
  }

  /* The two cookie constants below are written by the commands, not by
     utils/cookie.go: login filters the response for the session name
     (cmd/login.go:109) and sends the locale (cmd/login.go:92), and logout
     sends both (cmd/logout.go:57). They sit here, beside the store the
     session id goes into, so that Login and Logout share one definition. */

  /** The name of the session cookie Harbor sets. */
  const SessionCookie := "beegosessionID"

  /** The locale cookie the client sends along. */
  const LocaleCookie := "harbor-lang=zh-cn"

  /** utils.CookieLoad fails when no cookie file is there. */
  datatype LoadError = NoSession

  /** The cookie file conf/.cookie.yaml: at most one session id. */
  class SessionStore {

    var token: Option<string>

    constructor (initial: Option<string>)
      ensures token == initial
    {
      token := initial;
    }

    /** utils.CookieSave: the stored id becomes exactly sid, whether or not
        one was stored before. */
    method Save(sid: string)
      modifies this
      ensures token == Some(sid)
    {
      token := Some(sid);
    }

    /** utils.CookieClean: afterwards nothing is stored. */
    method Clean()
      modifies this
      ensures token == None
    {
      token := None;
    }

    /** utils.CookieLoad: the stored id, or an error when there is none. */
    method Load() returns (sid: string, err: Option<LoadError>)
      ensures err.None? <==> token.Some?
      ensures token.Some? ==> sid == token.value
      ensures token.None? ==> sid == "" && err == Some(NoSession)
    {
      match token
      case Some(t) => sid, err := t, None;
      case None => sid, err := "", Some(NoSession);
    }
  }
}
