/** Replication jobs (cmd/replication.go): listing jobs, with its default
    time window, its status whitelist and its query; stopping the jobs of a
    policy; deleting one job. */
module Replication {

  import opened GoStrings
  import opened Wrappers
  import opened Url
  import opened Http
  import QueryNames

  /** The flags of `replication list`, as one value. */
  datatype JobList = JobList(
    policyID: int64,
    num: int64,
    endTime: string,
    startTime: string,
    repository: string,
    status: string,
    page: int64,
    pageSize: int64)

  /** Why listing stops before a request is built. */
  datatype ListError = BadTime(text: string) | BadStatus(status: string)

  /** The job statuses the list command lets through (besides none). */
  predicate ValidJobStatus(status: string)
  {
    status == "" || status == "running" || status == "error" || status == "pending" ||
    status == "retrying" || status == "stopped" || status == "finished" || status == "canceled"
  }

  /** jobURL, set before every replication subcommand. */
  function JobURL(cfg: Config): string
  {
    URLGen(cfg, "/api/jobs")
  }

  /** The time window after the default rule: when either bound is missing
      both are replaced by the last ten days (today and ten days ago, both
      formatted yyyymmdd, are inputs: the clock is not modelled). */
  function DefaultWindow(f: JobList, today: string, tenDaysAgo: string): JobList
  {
    if f.startTime == "" || f.endTime == "" then f.(startTime := tenDaysAgo, endTime := today) else f
  }

  /** The list query, parameters in the order the command writes them;
      start and end are the Unix seconds of the two bounds. */
  function JobQuery(f: JobList, start: int64, end: int64): seq<(string, string)>
  {
    [("policy_id", FormatInt(f.policyID)), ("page", FormatInt(f.page)), ("page_size", FormatInt(f.pageSize)),
     ("status", f.status), ("start_time", FormatInt(start)), ("end_time", FormatInt(end)),
     ("repository", f.repository), ("num", FormatInt(f.num))]
  }

  /** What listing does with flags whose window is already settled: parse
      the start bound, then the end bound, then check the status, then send.
      unix stands for time.Parse("20060102", _) followed by Unix(). */
  function ListJobs(f: JobList, cfg: Config, unix: string -> Option<int64>): Outcome<(), ListError>
  {
    match unix(f.startTime)
    case None => Abort(BadTime(f.startTime))
    case Some(st) =>
      match unix(f.endTime)
      case None => Abort(BadTime(f.endTime))
      case Some(et) =>
        if !ValidJobStatus(f.status) then Abort(BadStatus(f.status))
        else Send(Request(Get, WithQuery(JobURL(cfg) + "/replication", JobQuery(f, st, et)), None, None))
  }

  /** The command's flag struct: listing overwrites its two time fields. */
  class JobReplicationList {
    var policyID: int64
    var num: int64
    var endTime: string
    var startTime: string
    var repository: string
    var status: string
    var page: int64
    var pageSize: int64

    function Flags(): JobList
      reads this
    {
      JobList(policyID, num, endTime, startTime, repository, status, page, pageSize)
    }

    constructor(f: JobList)
      ensures Flags() == f
    {
      policyID, num, endTime, startTime := f.policyID, f.num, f.endTime, f.startTime;
      repository, status, page, pageSize := f.repository, f.status, f.page, f.pageSize;
    }

    /** listReplicationJob. */
    method ListReplicationJob(cfg: Config, today: string, tenDaysAgo: string, unix: string -> Option<int64>)
      returns (out: Outcome<(), ListError>)
      modifies this`startTime, this`endTime
      ensures Flags() == DefaultWindow(old(Flags()), today, tenDaysAgo)
      ensures out == ListJobs(Flags(), cfg, unix)
    {
      if startTime == "" || endTime == "" {
        startTime := tenDaysAgo;
        endTime := today;
      }

      var st := unix(startTime);
      if st.None? {
        return Abort(BadTime(startTime));
      }
      var et := unix(endTime);
      if et.None? {
        return Abort(BadTime(endTime));
      }

      if !ValidJobStatus(status) {
        return Abort(BadStatus(status));
      }

      var targetURL := WithQuery(JobURL(cfg) + "/replication", JobQuery(Flags(), st.value, et.value));
      out := Send(Request(Get, targetURL, None, None));
    }
  }

  /** The window rule: flags with both bounds keep them; otherwise both are
      replaced, so a lone bound given on the command line is discarded. The
      other flags are never touched. */
  lemma DefaultWindowRule(f: JobList, today: string, tenDaysAgo: string)
    ensures var g := DefaultWindow(f, today, tenDaysAgo);
      && g.(startTime := f.startTime, endTime := f.endTime) == f
      && (g.startTime == f.startTime && g.endTime == f.endTime <==>
          (f.startTime != "" && f.endTime != "") || (f.startTime == tenDaysAgo && f.endTime == today))
      && (f.startTime == "" || f.endTime == "" ==> g.startTime == tenDaysAgo && g.endTime == today)
  {
  }

  /** Applying the rule twice changes nothing more, as long as the default
      bounds are not empty themselves. */
  lemma DefaultWindowIdempotent(f: JobList, today: string, tenDaysAgo: string)
    requires today != "" && tenDaysAgo != ""
    ensures DefaultWindow(DefaultWindow(f, today, tenDaysAgo), today, tenDaysAgo) == DefaultWindow(f, today, tenDaysAgo)
  {
  }

  /** The status check is reached only when both bounds parse, and then
      aborts exactly for a status off the whitelist. */
  lemma StatusAbortIff(f: JobList, cfg: Config, unix: string -> Option<int64>)
    ensures ListJobs(f, cfg, unix).Abort? && ListJobs(f, cfg, unix).error.BadStatus? <==>
      unix(f.startTime).Some? && unix(f.endTime).Some? && !ValidJobStatus(f.status)
  {
  }

  /** A bad bound aborts first, whatever the status: an unknown status in
      flags with an unparsable start bound is reported as the bound. */
  lemma TimeCheckedFirst(f: JobList, cfg: Config, unix: string -> Option<int64>)
    ensures unix(f.startTime).None? ==> ListJobs(f, cfg, unix) == Abort(BadTime(f.startTime))
    ensures unix(f.startTime).Some? && unix(f.endTime).None? ==> ListJobs(f, cfg, unix) == Abort(BadTime(f.endTime))
  {
  }

  /** Matching is exact: a status holding any capital letter is refused,
      once both bounds parse. */
  lemma StatusIsCaseSensitive(f: JobList, cfg: Config, unix: string -> Option<int64>)
    requires unix(f.startTime).Some? && unix(f.endTime).Some?
    requires HasUpper(f.status)
    ensures !ValidJobStatus(f.status)
    ensures ListJobs(f, cfg, unix) == Abort(BadStatus(f.status))
  {
    if ValidJobStatus(f.status) {
      QueryNames.StatusesLower();
      QueryNames.MoreStatusesLower();
      assert false;
    }
  }

  /** A whitelisted status holds no query delimiter. */
  lemma ValidStatusIsPlain(status: string)
    requires ValidJobStatus(status)
    ensures '&' !in status
  {
  }

  /** A request goes out exactly when both bounds parse and the status is
      whitelisted. */
  lemma ListJobsSendIff(f: JobList, cfg: Config, unix: string -> Option<int64>)
    ensures ListJobs(f, cfg, unix).Send? <==>
      unix(f.startTime).Some? && unix(f.endTime).Some? && ValidJobStatus(f.status)
  {
  }

  /** The list parameters survive being read back. */
  lemma JobQueryReadable(f: JobList, start: int64, end: int64)
    requires ValidJobStatus(f.status) && '&' !in f.repository
    ensures Readable(JobQuery(f, start, end))
  {
    ValidStatusIsPlain(f.status);
    FormatIntHasNoDelimiter(f.policyID);
    FormatIntHasNoDelimiter(f.page);
    FormatIntHasNoDelimiter(f.pageSize);
    FormatIntHasNoDelimiter(start);
    FormatIntHasNoDelimiter(end);
    FormatIntHasNoDelimiter(f.num);
    QueryNames.PagingNamesPlain();
    QueryNames.JobFilterNamesPlain();
    QueryNames.JobTimeNamesPlain();
    QueryNames.ArtifactNamesPlain();
  }

  /** The GET that listing sends reads back as policy_id, page, page_size,
      status, start_time, end_time, repository, num, in that order: the bounds
      as Unix seconds and the repository as given. */
  lemma ListJobsQuery(f: JobList, cfg: Config, unix: string -> Option<int64>)
    requires '&' !in f.repository
    requires ListJobs(f, cfg, unix).Send?
    ensures var r := ListJobs(f, cfg, unix).request;
      r.call == Get && r.cookie == None &&
      HasQuery(r.url, JobURL(cfg) + "/replication",
        JobQuery(f, unix(f.startTime).value, unix(f.endTime).value))
  {
    var st, et := unix(f.startTime).value, unix(f.endTime).value;
    JobQueryReadable(f, st, et);
    HasQueryOf(JobURL(cfg) + "/replication", JobQuery(f, st, et));
  }

  /** The body of `replication update`. */
  datatype JobStatusUpdate = JobStatusUpdate(policyID: int64, status: string)

  /** updateJobStatus: PUT jobURL/replication with the policy id and status. */
  function UpdateJobStatus(cfg: Config, policyID: int64, status: string): Request<JobStatusUpdate>
  {
    Request(Put, JobURL(cfg) + "/replication", None, Some(JobStatusUpdate(policyID, status)))
  }

  /** deleteReplicationJob: DELETE jobURL/replication/<id>. */
  function DeleteReplicationJob(cfg: Config, id: int64): Request<()>
  {
    Request(Delete, JobURL(cfg) + "/replication/" + FormatInt(id), None, None)
  }

  /** Stopping names the policy in the body, not in the URL, and passes the
      status through unchecked; deleting names the job by one id segment
      below the same collection. */
  lemma JobRequests(cfg: Config, policyID: int64, status: string, id: int64)
    ensures var u := UpdateJobStatus(cfg, policyID, status);
      u.call == Put && u.url == JobURL(cfg) + "/replication" &&
      u.body == Some(JobStatusUpdate(policyID, status))
    ensures var d := DeleteReplicationJob(cfg, id);
      d.call == Delete && d.body == None && EndsWithId(d.url, UpdateJobStatus(cfg, policyID, status).url + "/", id)
  {
    EndsWithIdOf(JobURL(cfg) + "/replication/", id);
  }
}
