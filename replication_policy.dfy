/** Replication policies (cmd/replication_policy.go): the list/get/delete
    URLs, and the policy record that create and update assemble from their
    flags and from two lookups. */
module ReplicationPolicy {

  import opened GoStrings
  import opened Wrappers
  import opened Url
  import opened Http

  /** One entry of the policy's filter list. */
  datatype Filter = Filter(kind: string, value: string)

  datatype ScheduleParam = ScheduleParam(scheduleType: string, weekday: int, offtime: int)

  /** The zero schedule: no flag ever reaches it. */
  const NoSchedule := ScheduleParam("", 0, 0)

  datatype Trigger = Trigger(kind: string, scheduleParam: ScheduleParam)

  /** policyInfo, the body sent to the server. Project and Target stand for
      the records the two lookups decode; the model does not look inside. */
  datatype PolicyInfo<Project, Target> = PolicyInfo(
    name: string,
    description: string,
    projects: seq<Project>,
    targets: seq<Target>,
    trigger: Trigger,
    filters: seq<Filter>,
    replicateExistingImageNow: bool,
    replicateDeletion: bool)

  /** The flags of create and of update (update has an id besides). */
  datatype PolicyFlags = PolicyFlags(
    replicationRuleName: string,
    sourceProjectName: string,
    endpointName: string,
    description: string,
    replicateExistingImageNow: bool,
    replicateDeletion: bool,
    triggerKind: string,
    scheduleType: string,
    scheduleWeekday: int64,
    scheduleOfftime: int64,
    filterByRepoName: string,
    filterByTagName: string,
    filterByLabelIDs: string)

  /** policyURL, set before every policy subcommand. */
  function PolicyURL(cfg: Config): string
  {
    URLGen(cfg, "/api/policies")
  }

  /** GET /api/policies/replication with name, project_id, page, page_size. */
  function ListPolicy(cfg: Config, name: string, projectID: string, page: int64, pageSize: int64): Request<()>
  {
    Request(Get, WithQuery(PolicyURL(cfg) + "/replication",
      [("name", name), ("project_id", projectID), ("page", FormatInt(page)), ("page_size", FormatInt(pageSize))]),
      None, None)
  }

  function GetPolicy(cfg: Config, id: int64): Request<()>
  {
    Request(Get, PolicyURL(cfg) + "/replication/" + FormatInt(id), None, None)
  }

  function DeletePolicy(cfg: Config, id: int64): Request<()>
  {
    Request(Delete, PolicyURL(cfg) + "/replication/" + FormatInt(id), None, None)
  }

  /** The lookup of the source project, by its raw (unescaped) name. */
  function ProjectLookupURL(cfg: Config, name: string): string
  {
    WithQuery(URLGen(cfg, "/api/projects"), [("name", name)])
  }

  /** The lookup of the destination endpoint, by its raw name. */
  function TargetLookupURL(cfg: Config, name: string): string
  {
    WithQuery(URLGen(cfg, "/api/targets"), [("name", name)])
  }

  /** One label filter per id, in order. */
  function LabelFilters(ids: seq<string>): seq<Filter>
  {
    seq(|ids|, k requires 0 <= k < |ids| => Filter("label", ids[k]))
  }

  /** The filter list the flags ask for: a repository filter, then a tag
      filter, then one label filter per comma-separated piece. */
  function PolicyFilters(flags: PolicyFlags): seq<Filter>
  {
    RepoFilter(flags) + TagFilter(flags) + LabelPart(flags)
  }

  function RepoFilter(flags: PolicyFlags): seq<Filter>
  {
    if flags.filterByRepoName != "" then [Filter("repository", flags.filterByRepoName)] else []
  }

  function TagFilter(flags: PolicyFlags): seq<Filter>
  {
    if flags.filterByTagName != "" then [Filter("tag", flags.filterByTagName)] else []
  }

  function LabelPart(flags: PolicyFlags): seq<Filter>
  {
    if flags.filterByLabelIDs != "" then LabelFilters(Split(flags.filterByLabelIDs, ',')) else []
  }

  /** What create and update put in the policy record: five flags copied
      as they are, the lookup results, the filter list, and a trigger that
      carries the kind and nothing from the schedule flags. */
  ghost predicate Assembled<P, T>(pinfo: PolicyInfo<P, T>, cfg: Config, flags: PolicyFlags,
                                  lookupProjects: string -> seq<P>, lookupTargets: string -> seq<T>)
  {
    && pinfo.name == flags.replicationRuleName
    && pinfo.description == flags.description
    && pinfo.projects == lookupProjects(ProjectLookupURL(cfg, flags.sourceProjectName))
    && pinfo.targets == lookupTargets(TargetLookupURL(cfg, flags.endpointName))
    && pinfo.trigger == Trigger(flags.triggerKind, NoSchedule)
    && pinfo.filters == PolicyFilters(flags)
    && pinfo.replicateExistingImageNow == flags.replicateExistingImageNow
    && pinfo.replicateDeletion == flags.replicateDeletion
  }

  /** The label loop: one label filter appended per id, in order. */
  method AppendLabelFilters<P, T>(pinfo: PolicyInfo<P, T>, ids: seq<string>) returns (r: PolicyInfo<P, T>)
    ensures r == pinfo.(filters := pinfo.filters + LabelFilters(ids))
  {
    r := pinfo;
    for k := 0 to |ids|
      invariant r == pinfo.(filters := pinfo.filters + LabelFilters(ids[..k]))
    {
      assert LabelFilters(ids[..k + 1]) == LabelFilters(ids[..k]) + [Filter("label", ids[k])];
      r := r.(filters := r.filters + [Filter("label", ids[k])]);
    }
    assert ids[..|ids|] == ids;
  }

  /** Concatenation regrouped, stated once so that the solver need not search for it. */
  lemma AppendAssoc<X>(a: seq<X>, b: seq<X>, c: seq<X>)
    ensures a + b + c == a + (b + c)
  {
  }

  /** The filter block: nothing when the three filter flags are empty,
      otherwise the repository, tag and label filters appended in turn. */
  method AppendFilters<P, T>(pinfo: PolicyInfo<P, T>, flags: PolicyFlags) returns (r: PolicyInfo<P, T>)
    ensures r == pinfo.(filters := pinfo.filters + PolicyFilters(flags))
  {
    r := pinfo;
    if flags.filterByRepoName == "" && flags.filterByTagName == "" && flags.filterByLabelIDs == "" {
      assert pinfo.filters + PolicyFilters(flags) == pinfo.filters;
    } else {
      if flags.filterByRepoName != "" {
        r := r.(filters := r.filters + [Filter("repository", flags.filterByRepoName)]);
      }
      assert r.filters == pinfo.filters + RepoFilter(flags);
      if flags.filterByTagName != "" {
        r := r.(filters := r.filters + [Filter("tag", flags.filterByTagName)]);
      }
      assert r.filters == pinfo.filters + (RepoFilter(flags) + TagFilter(flags));
      if flags.filterByLabelIDs != "" {
        r := AppendLabelFilters(r, Split(flags.filterByLabelIDs, ','));
      }
      AppendAssoc(pinfo.filters, RepoFilter(flags) + TagFilter(flags), LabelPart(flags));
    }
  }

  /** The shared body of createPolicy and updatePolicy: fills a zero record
      field by field. */
  method AssemblePolicy<P, T>(cfg: Config, flags: PolicyFlags,
                              lookupProjects: string -> seq<P>, lookupTargets: string -> seq<T>)
    returns (pinfo: PolicyInfo<P, T>)
    ensures Assembled(pinfo, cfg, flags, lookupProjects, lookupTargets)
  {
    pinfo := PolicyInfo("", "", [], [], Trigger("", NoSchedule), [], false, false);
    pinfo := pinfo.(name := flags.replicationRuleName);
    pinfo := pinfo.(projects := lookupProjects(ProjectLookupURL(cfg, flags.sourceProjectName)));
    pinfo := pinfo.(targets := lookupTargets(TargetLookupURL(cfg, flags.endpointName)));
    pinfo := AppendFilters(pinfo, flags);
    pinfo := pinfo.(description := flags.description);
    pinfo := pinfo.(replicateExistingImageNow := flags.replicateExistingImageNow);
    pinfo := pinfo.(replicateDeletion := flags.replicateDeletion);
    pinfo := pinfo.(trigger := pinfo.trigger.(kind := flags.triggerKind));
  }

  /** createPolicy: POST the assembled record to policyURL/replication. */
  method CreatePolicy<P, T>(cfg: Config, flags: PolicyFlags,
                            lookupProjects: string -> seq<P>, lookupTargets: string -> seq<T>)
    returns (req: Request<PolicyInfo<P, T>>)
    ensures req.call == Post && req.url == PolicyURL(cfg) + "/replication" && req.cookie == None
    ensures req.body.Some? && Assembled(req.body.value, cfg, flags, lookupProjects, lookupTargets)
  {
    var pinfo := AssemblePolicy(cfg, flags, lookupProjects, lookupTargets);
    req := Request(Post, PolicyURL(cfg) + "/replication", None, Some(pinfo));
  }

  /** updatePolicy: PUT the same record to policyURL/replication/<id>. */
  method UpdatePolicy<P, T>(cfg: Config, id: int64, flags: PolicyFlags,
                            lookupProjects: string -> seq<P>, lookupTargets: string -> seq<T>)
    returns (req: Request<PolicyInfo<P, T>>)
    ensures req.call == Put && req.url == PolicyURL(cfg) + "/replication/" + FormatInt(id) && req.cookie == None
    ensures EndsWithId(req.url, PolicyURL(cfg) + "/replication/", id)
    ensures req.body.Some? && Assembled(req.body.value, cfg, flags, lookupProjects, lookupTargets)
  {
    var pinfo := AssemblePolicy(cfg, flags, lookupProjects, lookupTargets);
    req := Request(Put, PolicyURL(cfg) + "/replication/" + FormatInt(id), None, Some(pinfo));
    EndsWithIdOf(PolicyURL(cfg) + "/replication/", id);
  }

  /** Create and update build the very same record from the same flags and
      lookups: Assembled pins every field. */
  lemma AssembledIsUnique<P, T>(p1: PolicyInfo<P, T>, p2: PolicyInfo<P, T>, cfg: Config, flags: PolicyFlags,
                                lookupProjects: string -> seq<P>, lookupTargets: string -> seq<T>)
    requires Assembled(p1, cfg, flags, lookupProjects, lookupTargets)
    requires Assembled(p2, cfg, flags, lookupProjects, lookupTargets)
    ensures p1 == p2
  {
  }

  /** The schedule flags never reach the record: two flag sets that differ
      only in them give the same record. */
  lemma ScheduleFlagsIgnored<P, T>(p1: PolicyInfo<P, T>, p2: PolicyInfo<P, T>, cfg: Config, flags: PolicyFlags,
                                   scheduleType: string, weekday: int64, offtime: int64,
                                   lookupProjects: string -> seq<P>, lookupTargets: string -> seq<T>)
    requires Assembled(p1, cfg, flags, lookupProjects, lookupTargets)
    requires Assembled(p2, cfg, flags.(scheduleType := scheduleType, scheduleWeekday := weekday, scheduleOfftime := offtime),
                       lookupProjects, lookupTargets)
    ensures p1 == p2 && p1.trigger.scheduleParam == NoSchedule
  {
  }

  /** No filter at all exactly when the three filter flags are empty. */
  lemma FiltersEmptyIff(flags: PolicyFlags)
    ensures PolicyFilters(flags) == [] <==>
      flags.filterByRepoName == "" && flags.filterByTagName == "" && flags.filterByLabelIDs == ""
  {
  }

  /** One filter for a repository name, one for a tag name, and one more
      label filter than there are commas in the label ids. */
  lemma FilterCount(flags: PolicyFlags)
    ensures |PolicyFilters(flags)| ==
      (if flags.filterByRepoName != "" then 1 else 0) +
      (if flags.filterByTagName != "" then 1 else 0) +
      (if flags.filterByLabelIDs != "" then Count(flags.filterByLabelIDs, ',') + 1 else 0)
  {
    SplitCount(flags.filterByLabelIDs, ',');
  }

  /** The repository filter comes first, the tag filter next, the label
      filters last; each kind is there exactly when its flag is set. */
  lemma FilterOrder(flags: PolicyFlags)
    ensures var fs := PolicyFilters(flags);
      var r := if flags.filterByRepoName != "" then 1 else 0;
      var t := if flags.filterByTagName != "" then 1 else 0;
      && r + t <= |fs|
      && (flags.filterByRepoName != "" ==> fs[0] == Filter("repository", flags.filterByRepoName))
      && (flags.filterByTagName != "" ==> fs[r] == Filter("tag", flags.filterByTagName))
      && fs[r + t..] == (if flags.filterByLabelIDs != "" then LabelFilters(Split(flags.filterByLabelIDs, ',')) else [])
  {
  }

  /** The values of the filters, in order. */
  function Values(fs: seq<Filter>): (vs: seq<string>)
    ensures |vs| == |fs|
  {
    seq(|fs|, k requires 0 <= k < |fs| => fs[k].value)
  }

  /** The label filters give back the label-id flag: joining their values
      with commas restores it, empty pieces included. */
  lemma LabelFiltersRestoreIDs(flags: PolicyFlags)
    requires flags.filterByLabelIDs != ""
    ensures var r := if flags.filterByRepoName != "" then 1 else 0;
      var t := if flags.filterByTagName != "" then 1 else 0;
      var fs := PolicyFilters(flags);
      r + t < |fs| &&
      (forall k :: r + t <= k < |fs| ==> fs[k].kind == "label") &&
      Join(Values(fs[r + t..]), ',') == flags.filterByLabelIDs
  {
    var ids := Split(flags.filterByLabelIDs, ',');
    FilterOrder(flags);
    assert Values(LabelFilters(ids)) == ids;
    JoinSplit(flags.filterByLabelIDs, ',');
  }

  /** Empty pieces are kept: "a,,b" gives the label filters a, "" and b. */
  lemma EmptyLabelPieceKept(a: string, b: string)
    requires ',' !in a && ',' !in b
    ensures LabelFilters(Split(a + ",," + b, ',')) ==
      [Filter("label", a), Filter("label", ""), Filter("label", b)]
  {
    assert a + ",," + b == a + [','] + ("" + [','] + b);
    SplitAfterPiece(a, "" + [','] + b, ',');
    SplitAfterPiece("", b, ',');
    SplitNoSep(b, ',');
    assert "" + [','] + b == [','] + b;
  }

  /** The list query reads back as name, project_id, page, page_size, in that
      order, the name and project id exactly as given. */
  lemma ListPolicyQuery(cfg: Config, name: string, projectID: string, page: int64, pageSize: int64)
    requires '&' !in name && '&' !in projectID
    ensures HasQuery(ListPolicy(cfg, name, projectID, page, pageSize).url, PolicyURL(cfg) + "/replication",
                     [("name", name), ("project_id", projectID), ("page", FormatInt(page)), ("page_size", FormatInt(pageSize))])
  {
    var ps := [("name", name), ("project_id", projectID), ("page", FormatInt(page)), ("page_size", FormatInt(pageSize))];
    FormatIntHasNoDelimiter(page);
    FormatIntHasNoDelimiter(pageSize);
    assert '=' !in "name" && '&' !in "name" && '=' !in "project_id" && '&' !in "project_id";
    assert '=' !in "page" && '&' !in "page" && '=' !in "page_size" && '&' !in "page_size";
    assert Readable(ps);
    HasQueryOf(PolicyURL(cfg) + "/replication", ps);
  }

  /** Get and delete address the policy by one id segment after
      policyURL/replication/. */
  lemma PolicyIdURLs(cfg: Config, id: int64)
    ensures GetPolicy(cfg, id).call == Get && DeletePolicy(cfg, id).call == Delete
    ensures EndsWithId(GetPolicy(cfg, id).url, PolicyURL(cfg) + "/replication/", id)
    ensures DeletePolicy(cfg, id).url == GetPolicy(cfg, id).url
  {
    EndsWithIdOf(PolicyURL(cfg) + "/replication/", id);
  }

  /** The lookups send the name unescaped: it reads back verbatim as the
      only parameter. */
  lemma LookupQueries(cfg: Config, projectName: string, endpointName: string)
    requires '&' !in projectName && '&' !in endpointName
    ensures HasQuery(ProjectLookupURL(cfg, projectName), URLGen(cfg, "/api/projects"), [("name", projectName)])
    ensures HasQuery(TargetLookupURL(cfg, endpointName), URLGen(cfg, "/api/targets"), [("name", endpointName)])
  {
    assert '=' !in "name" && '&' !in "name";
    HasQueryOf(URLGen(cfg, "/api/projects"), [("name", projectName)]);
    HasQueryOf(URLGen(cfg, "/api/targets"), [("name", endpointName)]);
  }
}
