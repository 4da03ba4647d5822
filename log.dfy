/** Access logs (cmd/log.go): the operation whitelist and the query of
    `harborctl log`. */
module AccessLog {

  import opened GoStrings
  import opened Wrappers
  import opened Url
  import opened Http
  import QueryNames

  /** The flags of `harborctl log`. */
  datatype LogFlags = LogFlags(
    username: string,
    repository: string,
    tag: string,
    operation: string,
    beginTimestamp: string,
    endTimestamp: string,
    page: int64,
    pageSize: int64)

  /** The only way the command stops before sending. */
  datatype LogError = BadOperation(operation: string)

  /** The operations the command lets through (besides none). */
  predicate ValidLogOperation(op: string)
  {
    op == "" || op == "create" || op == "delete" || op == "push" || op == "pull"
  }

  /** The query, parameters in the order the command writes them. */
  function LogQuery(f: LogFlags): seq<(string, string)>
  {
    [("username", f.username), ("repository", f.repository), ("tag", f.tag), ("operation", f.operation),
     ("begin_timestamp", f.beginTimestamp), ("end_timestamp", f.endTimestamp),
     ("page", FormatInt(f.page)), ("page_size", FormatInt(f.pageSize))]
  }

  /** getLog: check the operation, then GET /api/logs with the query. */
  function GetLog(cfg: Config, f: LogFlags): Outcome<(), LogError>
  {
    if !ValidLogOperation(f.operation) then Abort(BadOperation(f.operation))
    else Send(Request(Get, WithQuery(URLGen(cfg, "/api/logs"), LogQuery(f)), None, None))
  }

  /** The command aborts exactly for an operation off the whitelist, and
      then with BadOperation. */
  lemma OperationAbortIff(cfg: Config, f: LogFlags)
    ensures GetLog(cfg, f).Abort? <==> !ValidLogOperation(f.operation)
    ensures GetLog(cfg, f).Abort? ==> GetLog(cfg, f).error == BadOperation(f.operation)
  {
  }

  /** Matching is exact: an operation holding any capital letter is refused. */
  lemma OperationIsCaseSensitive(cfg: Config, f: LogFlags)
    requires HasUpper(f.operation)
    ensures !ValidLogOperation(f.operation)
    ensures GetLog(cfg, f) == Abort(BadOperation(f.operation))
  {
    if ValidLogOperation(f.operation) {
      QueryNames.OperationsLower();
      assert false;
    }
  }

  /** A whitelisted operation holds no query delimiter. */
  lemma ValidOperationIsPlain(op: string)
    requires ValidLogOperation(op)
    ensures '&' !in op
  {
  }

  /** The log parameters survive being read back when the free-text flags
      hold no '&' (nothing is escaped). */
  lemma LogQueryReadable(f: LogFlags)
    requires ValidLogOperation(f.operation)
    requires '&' !in f.username && '&' !in f.repository && '&' !in f.tag
    requires '&' !in f.beginTimestamp && '&' !in f.endTimestamp
    ensures Readable(LogQuery(f))
  {
    ValidOperationIsPlain(f.operation);
    FormatIntHasNoDelimiter(f.page);
    FormatIntHasNoDelimiter(f.pageSize);
    QueryNames.PagingNamesPlain();
    QueryNames.ArtifactNamesPlain();
    QueryNames.LogNamesPlain();
    QueryNames.LogTimeNamesPlain();
  }

  /** The GET reads back as username, repository, tag, operation,
      begin_timestamp, end_timestamp, page, page_size, in that order. */
  lemma GetLogQuery(cfg: Config, f: LogFlags)
    requires ValidLogOperation(f.operation)
    requires '&' !in f.username && '&' !in f.repository && '&' !in f.tag
    requires '&' !in f.beginTimestamp && '&' !in f.endTimestamp
    ensures GetLog(cfg, f).Send?
    ensures var r := GetLog(cfg, f).request;
      r.call == Get && r.cookie == None && HasQuery(r.url, URLGen(cfg, "/api/logs"), LogQuery(f))
  {
    LogQueryReadable(f);
    HasQueryOf(URLGen(cfg, "/api/logs"), LogQuery(f));
  }

  /** The timestamps are neither parsed nor defaulted: any text, a date or
      not, empty or not, leaves the decision alone and reaches the query as
      it stands. */
  lemma TimestampsPassThrough(cfg: Config, f: LogFlags, begin: string, end: string)
    ensures GetLog(cfg, f.(beginTimestamp := begin, endTimestamp := end)).Send? == GetLog(cfg, f).Send?
    ensures var q := LogQuery(f.(beginTimestamp := begin, endTimestamp := end));
      q[4] == ("begin_timestamp", begin) && q[5] == ("end_timestamp", end) &&
      q[..4] == LogQuery(f)[..4] && q[6..] == LogQuery(f)[6..]
  {
  }
}
