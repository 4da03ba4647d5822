# harborctl core, modelled in Dafny

harborctl is a command-line client for the Harbor registry's REST API.
Each command turns its flags into one HTTP request against a URL built
from the configured scheme and address. This project models the parts
of the client that decide something. Most modules follow one source file;
`Chart` covers two, and the last four hold shared pieces:

- `Cookie` (utils/cookie.go) covers two things:
  - `CookieFilter`, which picks the session id out of the cookies of the
    login response. A reference function, `FilterCookies`, reads the
    cookies in order. The method with its two loops is proved equal to it.
  - The one-slot session store: `CookieSave`, `CookieLoad` and
    `CookieClean`, modelled as the class `SessionStore`.
- `Url` (utils/url.go) holds `URLGen`. It also holds an independent
  reader for the query strings and paths that the commands glue together
  by hand: `ParseQuery` splits on `&` and then at the first `=`; the path
  reader splits on `/`. Parameter order and segment order are stated by
  reading the built URL back with this reader.
- `ReplicationPolicy` (cmd/replication_policy.go) covers the list, get
  and delete URLs. It also covers the policy record that create and update
  assemble field by field, including the filter list built with a loop.
- `Replication` (cmd/replication.go) covers listing jobs: the default time
  window written into the flag struct, the parse and whitelist checks, and
  the query. It also has the URLs for stopping jobs and deleting a job.
- `AccessLog` (cmd/log.go) covers the operation whitelist and the query.
- `Chart` (cmd/chartrepo_chart.go, cmd/chartrepo_chart_label.go) covers
  the chart paths and the label paths, and the body sent to attach a label.
- `Login` (cmd/login.go) and `Logout` (cmd/logout.go) cover where the
  password comes from, the requests both commands send, and when each
  callback saves or clears the session.
- `GoStrings` holds the Go library functions these files call:
  `strings.TrimSpace`, `Split`, `Index` and `strconv.FormatInt`. It also
  holds a strict decimal reader, `ParseInt`, that accepts exactly the text
  `FormatInt` writes. `QueryNames` holds facts about the fixed parameter
  names and whitelisted values. `Http` holds the request value that a
  command hands to the HTTP layer. `Wrappers` holds `Option`.

A request is a value: the utils helper it goes to, the URL, the Cookie
header when the call site sets one itself, and the body. A command either
aborts before building a request (`Abort`) or sends one (`Send`).

The commands build URLs by hand, as in `"?name=" + x + "&page=" + y`.
The model writes the same strings through two builders:
- `Url.WithQuery(path, params)`: the path, `?`, then `name=value` pairs
  joined by `&`.
- `Url.WithPath(base, segments)`: the base, `/`, then the segments
  joined by `/`.

The inputs that the source reads from the outside world are parameters:
- `Config` holds the scheme and address that viper resolves.
- `today` and `tenDaysAgo` are the formatted dates `time.Now` gives.
- `unix` stands for `time.Parse` followed by `Unix`.
- `escape` stands for `url.QueryEscape`.
- `term` stands for `ReadPasswordFromTerm`.
- The two lookup functions stand for what `utils.GetStruct` decodes.
- `errs` and `cookies` are what the HTTP client hands the callbacks.

`logoutProc` returns before clearing when the client reports a non-nil
error (cmd/logout.go:63-68). `Logout.SessionAfterLogout` keeps the session
in that case.

The help text of `replication job list` (cmd/replication.go:65) and the
comment at cmd/replication.go:128 say the last ten days are listed when
start_time and end_time are both null. The condition at
cmd/replication.go:129 uses `||`, so one missing bound is enough, and a
bound given alone is overwritten too. The model follows the condition:
`Replication.DefaultWindowRule` states that a lone bound is discarded.

## Model

| member | source | states |
|---|---|---|
| Url.URLGen | utils/url.go:6-8 | the URL is scheme, then "://", then the address, then the uri, each unchanged; its length is the sum of theirs plus 3 (no normalisation) |
| Url.ParseEncodeQuery | cmd/log.go:107-114 | parameters whose names hold no '=' or '&' and whose values hold no '&' read back from the glued query: same names, same values, same order |
| Url.HasQueryOf | cmd/replication_policy.go:103-106 | a URL written as path + "?" + readable parameters carries exactly those parameters after the path |
| Url.AmpersandInValueSplitsParameter | cmd/replication_policy.go:361 | nothing is escaped: a value a&b reads back as the parameter name=a followed by a second parameter made from b |
| Url.HasSegmentsOf | cmd/chartrepo_chart.go:90-95 | a path glued from segments free of '/' splits back into exactly those segments, in order, empty ones included |
| Url.WithPathSnoc | cmd/chartrepo_chart.go:89-96 | one more segment adds exactly "/" + segment at the end of the path |
| Url.EndsWithIdOf | cmd/replication_policy.go:135 | appending FormatInt(id) to a prefix adds one segment, free of '/' and '?', that the strict reader reads back as id |
| Url.EndsWithIdIff | cmd/replication_policy.go:135 | a URL is the prefix followed by a segment the strict reader reads as id iff it is exactly prefix + FormatInt(id): no other text passes for the id |
| GoStrings.ParseFormatInt | cmd/replication_policy.go:135 | strconv.FormatInt's text for any int64 reads back as that number |
| GoStrings.FormatParseInt | cmd/replication_policy.go:135 | the only text the strict reader reads as n is FormatInt(n): digits, an optional '-' for a negative n, no leading zero |
| Cookie.FilterCookies | utils/cookie.go:19-45 | reference reading of CookieFilter: cookies in order, each split on ';' and trimmed; the first part that decides gives the result. What it promises is stated by the Cookie lemmas below |
| Cookie.CookieFilter | utils/cookie.go:19-45 | the nested loop returns the value FilterCookies finds, with no error, or "" with the error FilterCookies fails with |
| Cookie.ScanParts | utils/cookie.go:28-42 | the inner loop returns the verdict of the first part that decides: Match(value), Malformed for the bare name, or Skip when no part decides |
| Cookie.PartVerdictMatchIff | utils/cookie.go:29-41 | a trimmed part matches with value v iff the filter holds no '=' and the part is exactly filter + "=" + v; only the first '=' splits, so v may hold more '=' |
| Cookie.PartVerdictMalformedIff | utils/cookie.go:30-34 | a part is malformed iff it has no '=' and is the filter itself |
| Cookie.NameIsNotRetrimmed | utils/cookie.go:38-39 | the text before '=' is compared as it stands: "name =v" does not match name |
| Cookie.OtherNameSkips | utils/cookie.go:38-39 | a part whose text before its first '=' is another name is skipped |
| Cookie.FirstDecisiveSkipIff | utils/cookie.go:28-42 | the scan over a cookie's parts skips iff every part skips |
| Cookie.FirstDecisiveAt | utils/cookie.go:28-42 | the first part that does not skip decides the scan; later parts are never looked at |
| Cookie.EmptyCookieIsMalformed | utils/cookie.go:22-26 | the single-empty-part guard fires exactly for a cookie that is all white space, and such a cookie is malformed |
| Cookie.CookieSkipIff | utils/cookie.go:22-42 | a cookie is passed over iff it is not blank and all its trimmed parts skip |
| Cookie.FilterAppend | utils/cookie.go:21-44 | cookies are scanned in order: the later ones count only when nothing in the earlier ones decides |
| Cookie.NotAvailableIff | utils/cookie.go:44 | errCookiesNotAvailable iff every cookie is passed over; in particular for no cookies |
| Cookie.BlankCookieStopsScan | utils/cookie.go:22-26 | reaching a blank cookie gives errMalCookies whatever later cookies hold |
| Cookie.FirstDecisivePartDecides | utils/cookie.go:21-41 | the first deciding part of the first deciding cookie gives the result: its value for filter=value, errMalCookies for the bare name |
| Cookie.FoundComesFromPart | utils/cookie.go:38-40 | a found value comes from some cookie part that trims to exactly filter + "=" + value, and the filter holds no '=' |
| Cookie.FoundValueIsClean | utils/cookie.go:28-40 | a value the filter finds holds no ';' and does not end in white space, since it is the tail of a trimmed piece of a cookie split on ';' |
| Cookie.SessionStore.Save | utils/cookie.go:51-66 | the stored id becomes exactly sid, whatever was stored before |
| Cookie.SessionStore.Clean | utils/cookie.go:71-73 | afterwards nothing is stored |
| Cookie.SessionStore.Load | utils/cookie.go:76-89 | returns the stored id without error iff one is stored; otherwise "" and NoSession |
| ReplicationPolicy.AppendLabelFilters | cmd/replication_policy.go:389-397 | the loop appends exactly LabelFilters(ids) to the filter list and changes no other field |
| ReplicationPolicy.AppendFilters | cmd/replication_policy.go:369-398 | the filter block appends exactly PolicyFilters(flags) (repository, tag, then labels) and changes no other field |
| ReplicationPolicy.AssemblePolicy | cmd/replication_policy.go:356-404 | the record is the assembled one: name, description and both replicate flags copied, the two lookup results, PolicyFilters(flags), and a trigger with the kind and a zero schedule |
| ReplicationPolicy.CreatePolicy | cmd/replication_policy.go:346-415 | a POST to policyURL/replication whose body is the assembled record |
| ReplicationPolicy.UpdatePolicy | cmd/replication_policy.go:533-593 | a PUT to exactly policyURL/replication/ + FormatInt(id), with no Cookie header set at the call site, whose last segment the strict reader reads back as id, with the same assembled record |
| ReplicationPolicy.AssembledIsUnique | cmd/replication_policy.go:536-584 | the assembled record is determined by the flags and lookups, so create and update send the same record for the same flags |
| ReplicationPolicy.ScheduleFlagsIgnored | cmd/replication_policy.go:404 | the schedule type, weekday and offtime flags never reach the record: its schedule stays zero |
| ReplicationPolicy.FiltersEmptyIff | cmd/replication_policy.go:369-372 | no filter at all iff the repository, tag and label-id flags are all empty |
| ReplicationPolicy.FilterCount | cmd/replication_policy.go:369-398 | the filter count is [repo set] + [tag set] + (label ids set ? commas + 1 : 0) |
| ReplicationPolicy.FilterOrder | cmd/replication_policy.go:374-397 | the repository filter comes first iff its flag is set, the tag filter next iff its flag is set, and the label filters last |
| ReplicationPolicy.LabelFiltersRestoreIDs | cmd/replication_policy.go:389-397 | the label filters are all of kind label and their values joined by ',' give back the label-id flag |
| ReplicationPolicy.EmptyLabelPieceKept | cmd/replication_policy.go:390-396 | an empty piece is kept: "a,,b" gives label filters a, "" and b |
| ReplicationPolicy.ListPolicy | cmd/replication_policy.go:102-108 | the list GET; what it carries is stated by ListPolicyQuery |
| ReplicationPolicy.GetPolicy | cmd/replication_policy.go:134-137 | the get GET; its URL is stated by PolicyIdURLs |
| ReplicationPolicy.DeletePolicy | cmd/replication_policy.go:163-166 | the delete request; its URL is stated by PolicyIdURLs |
| ReplicationPolicy.ListPolicyQuery | cmd/replication_policy.go:102-108 | when the name and the project id hold no '&', the list URL reads back as name, project_id, page, page_size, in that order, the name and project id as given (with an '&' the split differs, see AmpersandInValueSplitsParameter) |
| ReplicationPolicy.PolicyIdURLs | cmd/replication_policy.go:134-166 | get and delete use the same URL, policyURL/replication/ and one segment that reads back as the id |
| ReplicationPolicy.LookupQueries | cmd/replication_policy.go:361-366 | when the project and endpoint names hold no '&', each lookup reads back with the raw name as its only parameter |
| Replication.JobReplicationList.ListReplicationJob | cmd/replication.go:127-168 | the time fields become the default window and the outcome is ListJobs on the updated flags |
| Replication.DefaultWindowRule | cmd/replication.go:128-133 | a missing bound replaces both bounds, so a lone bound is discarded; both bounds given are kept; no other flag changes |
| Replication.DefaultWindowIdempotent | cmd/replication.go:129-133 | applying the window rule twice is applying it once, for non-empty default dates |
| Replication.ListJobs | cmd/replication.go:135-167 | the checks and the query after the window is set; stated by TimeCheckedFirst, StatusAbortIff, ListJobsSendIff and ListJobsQuery |
| Replication.TimeCheckedFirst | cmd/replication.go:135-144 | an unparsable start bound aborts naming it, whatever follows; then an unparsable end bound |
| Replication.StatusAbortIff | cmd/replication.go:146-156 | the status abort happens iff both bounds parse and the status is off the whitelist |
| Replication.StatusIsCaseSensitive | cmd/replication.go:146-156 | once both bounds parse, any status holding a capital letter is off the whitelist and the command aborts with BadStatus |
| Replication.ValidStatusIsPlain | cmd/replication.go:146-153 | a whitelisted status holds no '&' |
| Replication.ListJobsSendIff | cmd/replication.go:135-167 | a request goes out iff both bounds parse and the status is whitelisted |
| Replication.JobQueryReadable | cmd/replication.go:158-165 | the list parameters, with numbers written by FormatInt, can be read back when the repository holds no '&' |
| Replication.ListJobsQuery | cmd/replication.go:158-167 | when a request goes out and the repository holds no '&', the GET reads back as policy_id, page, page_size, status, start_time, end_time, repository, num, with the bounds as Unix seconds |
| Replication.UpdateJobStatus | cmd/replication.go:201-211 | the stop request; stated by JobRequests |
| Replication.DeleteReplicationJob | cmd/replication.go:237-240 | the delete request; stated by JobRequests |
| Replication.JobRequests | cmd/replication.go:201-240 | stopping PUTs to jobURL/replication with the policy id and status in the body; deleting uses that URL plus "/" and one segment that reads back as the id |
| AccessLog.GetLog | cmd/log.go:97-117 | the whitelist check and the query; stated by OperationAbortIff, GetLogQuery and TimestampsPassThrough |
| AccessLog.OperationAbortIff | cmd/log.go:97-105 | the command aborts iff the operation is off the whitelist, and then with BadOperation |
| AccessLog.OperationIsCaseSensitive | cmd/log.go:98-105 | any operation holding a capital letter is off the whitelist and the command aborts with BadOperation |
| AccessLog.ValidOperationIsPlain | cmd/log.go:98-102 | a whitelisted operation holds no '&' |
| AccessLog.LogQueryReadable | cmd/log.go:107-114 | the log parameters can be read back when the free-text flags hold no '&' |
| AccessLog.GetLogQuery | cmd/log.go:107-116 | for a whitelisted operation and username, repository, tag and both timestamps free of '&', a GET goes out and reads back as username, repository, tag, operation, begin_timestamp, end_timestamp, page, page_size, in that order |
| AccessLog.TimestampsPassThrough | cmd/log.go:111-112 | any begin and end text leaves the decision unchanged and reaches the query verbatim, the other parameters unchanged |
| Chart.GetChartsInfo | cmd/chartrepo_chart.go:87-98 | the chart get request; stated by GetChartsInfoPath and VersionSegmentAppended |
| Chart.DeleteChartsInfo | cmd/chartrepo_chart.go:138-148 | the chart delete request; stated by DeleteChartsInfoPath and VersionSegmentAppended |
| Chart.UploadChart | cmd/chartrepo_chart.go:188-191 | the multipart upload; stated by UploadListSameCollection |
| Chart.ListCharts | cmd/chartrepo_chart.go:218-221 | the chart list GET; stated by UploadListSameCollection |
| Chart.GetChartLabel | cmd/chartrepo_chart_label.go:90-96 | the label get request; stated by GetLabelPath |
| Chart.DeleteChartLabel | cmd/chartrepo_chart_label.go:145-152 | the label delete request; stated by DeleteLabelPath |
| Chart.AttachLabel | cmd/chartrepo_chart_label.go:210-222 | the attach request; stated by AttachLabelPath and AttachBodyIsLabelOnly |
| Chart.GetChartsInfoPath | cmd/chartrepo_chart.go:87-98 | for project, chart and version names free of '/', get reads back as chart, charts, project, then the version exactly when one is given |
| Chart.DeleteChartsInfoPath | cmd/chartrepo_chart.go:138-148 | for project, chart and version names free of '/', delete reads back as project, charts, chart, then the version exactly when one is given |
| Chart.VersionSegmentAppended | cmd/chartrepo_chart.go:89-96 | a version adds exactly "/" + version to the get path and to the delete path |
| Chart.GetDeleteSwapped | cmd/chartrepo_chart.go:87-148 | get with project p and chart c hits the path that delete uses for project c and chart p; likewise label get and attach |
| Chart.UploadListSameCollection | cmd/chartrepo_chart.go:188-221 | upload is a multipart POST to the list URL with both file names as given, an empty provenance name included; for a project name free of '/' that URL reads back as <project>/charts |
| Chart.GetLabelPath | cmd/chartrepo_chart_label.go:90-96 | for project, chart and version names free of '/', the label get path reads back as chart, charts, project, version, labels |
| Chart.AttachLabelPath | cmd/chartrepo_chart_label.go:210-213 | for project, chart and version names free of '/', the attach path reads back as project, charts, chart, version, labels |
| Chart.DeleteLabelPath | cmd/chartrepo_chart_label.go:145-152 | label delete is the attach path plus one segment that reads back as the label id |
| Chart.AttachBodyIsLabelOnly | cmd/chartrepo_chart_label.go:215-221 | the attach body is the label record with only the id set, the same whatever the project, chart and version |
| Login.LoginOutcome | cmd/login.go:59-94 | what loginHarbor does with the flags and the terminal; stated by PasswordSource and LoginRequestShape |
| Login.SessionAfterLogin | cmd/login.go:98-124 | what the login callback leaves in the store; stated by ErrorKeepsSession and SavedSessionComesFromCookie |
| Login.Credentials.LoginHarbor | cmd/login.go:58-95 | the password field takes the terminal password only when the flag was empty, and the outcome is LoginOutcome on the old flags |
| Login.PasswordSource | cmd/login.go:59-74 | login aborts iff the password flag is empty and the terminal read fails or gives ""; with the flag set the terminal is never consulted |
| Login.LoginRequestShape | cmd/login.go:76-94 | a POST to /login with the locale cookie only; for an escape function that never writes '&' (as url.QueryEscape does not) and a username free of '&', the body reads back as principal = username (unescaped) and password = escaped password |
| Login.LoginProc | cmd/login.go:98-124 | the store ends as SessionAfterLogin: unchanged on any error or a failed filter, otherwise the filtered session id |
| Login.ErrorKeepsSession | cmd/login.go:99-104 | any non-nil transport error leaves the store as it was |
| Login.SavedSessionComesFromCookie | cmd/login.go:106-123 | a failed filter leaves the store; otherwise exactly the found value is saved, and it comes from a response cookie part beegosessionID=<id> |
| Logout.LogoutOutcome | cmd/logout.go:46-59 | what logoutHarbor does with what is stored; stated by LogoutNeedsSession |
| Logout.SessionAfterLogout | cmd/logout.go:62-75 | what the logout callback leaves in the store; stated by LogoutClearIff |
| Logout.LogoutHarbor | cmd/logout.go:46-59 | reads the store without changing it; the outcome is LogoutOutcome of what is stored |
| Logout.LogoutNeedsSession | cmd/logout.go:50-58 | with nothing stored logout aborts; otherwise it sends a GET to /log_out carrying the locale cookie and exactly the stored id |
| Logout.LogoutCookieRoundTrip | cmd/logout.go:57 | for an id with no ';' and no trailing white space, `CookieVerdict` on that one header with beegosessionID gives Match(id): the locale part is skipped and the session part gives the id back |
| Logout.SavedSessionLogsOut | cmd/login.go:106-123 | every session id the login callback saves is free of ';' and ends in no white space, so logout's Cookie header gives exactly that id back through `CookieVerdict` |
| Logout.LogoutProc | cmd/logout.go:62-75 | the store ends as SessionAfterLogout: unchanged when a non-nil error is reported, cleared otherwise |
| Logout.LogoutClearIff | cmd/logout.go:63-74 | the store ends empty iff it was empty or no non-nil error is reported; nil entries do not change the outcome |

## Left out

- The HTTP layer is not part of this model: the gorequest client in utils/agent.go and the `utils.Get/Post/Put/Delete/Multipart/GetStruct` helpers. A request is a value; responses, status printing and TLS settings are not modelled.
- Console output (`fmt.Println`) is not modelled. Neither is `os.Exit(1)`, which appears as an `Abort` outcome.
- The error values an `Abort` carries are labels of the model. The whitelist checks at cmd/log.go:103 and cmd/replication.go:154 print a fixed message that does not name the rejected value; `BadOperation` and `BadStatus` carry it only to tell the cases apart.
- net/http `Cookie.String()` is not modelled: the cookie filter takes the cookies as already serialized strings.
- YAML marshalling and file I/O of the session store are not modelled; the store is an optional id.
- Cookie.SessionStore.Save: a failed marshal or write in `CookieSave` is not modelled, so a save always succeeds.
- Cookie.SessionStore.Load: an unreadable or malformed file is not told apart from a missing one.
- Request headers other than Cookie are not modelled, such as the Content-Type that login sets (cmd/login.go:82).
- viper configuration (utils/config.go and cmd/root.go) is not modelled: `Config` carries the scheme and address.
- cmd/chartrepo.go is not part of this model: `chartrepoURL` is a parameter.
- Clock and date parsing (`time.Now`, `AddDate`, `Format`, `Parse`, `Unix`) are not modelled. Dates are inputs and parsing is a function parameter.
- `url.QueryEscape` is not modelled and is a function parameter; the one property used of it, that it never writes '&', is a requires of `Login.LoginRequestShape`. `ReadPasswordFromTerm` is not modelled and is an optional string.
- The JSON encoding of bodies (`json.Marshal`, `omitempty`) is not modelled, and neither are its errors: bodies are records.
- `ReplicationPolicy.AssemblePolicy`: the project and target records decoded by the lookups are type parameters, and their contents are not modelled.
- `GoStrings.Index` and the other string functions work on characters, not UTF-8 bytes.
- `int64` flags are a bounded newtype. `FormatInt` is proved to read back, but only decimal text is modelled.
- Cobra command and flag registration is not modelled, and neither is `MarkFlagRequired`. Every flag is an input.
- The thin per-resource commands are not part of this model, and neither are the duplicate project commands in cmd/create.go, cmd/list.go, cmd/get.go, cmd/delete.go and cmd/update.go.
