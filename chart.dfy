/** Helm charts in the chart repository (cmd/chartrepo_chart.go) and the
    labels of a chart version (cmd/chartrepo_chart_label.go). Every command
    targets a path under chartrepoURL, which is set by the parent command
    (cmd/chartrepo.go is not part of this model) and is a parameter here. */
module Chart {

  import opened GoStrings
  import opened Wrappers
  import opened Url
  import opened Http

  /** The two file names an upload hands to the multipart helper. */
  datatype Files = Files(chartFile: string, provFile: string)

  /** The label sub-record of `chart label attach`. Only the id has a flag;
      every other field keeps its zero value. */
  datatype ChartLabel = ChartLabel(
    id: int64,
    name: string,
    description: string,
    color: string,
    scope: string,
    projectID: int64,
    creationTime: string,
    updateTime: string,
    deleted: bool)

  /** The record the attach command marshals, with only the id set. */
  function LabelOfID(id: int64): ChartLabel
  {
    ChartLabel(id, "", "", "", "", 0, "", "", false)
  }

  /** getChartsInfo: chart name in the repository slot, project name after
      charts, and the version segment only when a version is given. */
  function GetChartsInfo(repoURL: string, projectName: string, chartName: string, chartVersion: string): Request<()>
  {
    if chartVersion != "" then
      Request(Get, WithPath(repoURL, [chartName, "charts", projectName, chartVersion]), None, None)
    else
      Request(Get, WithPath(repoURL, [chartName, "charts", projectName]), None, None)
  }

  /** deleteChartsInfo: project name in the repository slot, chart name
      after charts, and the version segment only when a version is given. */
  function DeleteChartsInfo(repoURL: string, projectName: string, chartName: string, chartVersion: string): Request<()>
  {
    if chartVersion != "" then
      Request(Delete, WithPath(repoURL, [projectName, "charts", chartName, chartVersion]), None, None)
    else
      Request(Delete, WithPath(repoURL, [projectName, "charts", chartName]), None, None)
  }

  /** uploadChart: a multipart POST of the chart file and the provenance
      file, the latter possibly empty, to <project>/charts. */
  function UploadChart(repoURL: string, projectName: string, chartFile: string, provFile: string): Request<Files>
  {
    Request(Multipart, WithPath(repoURL, [projectName, "charts"]), None, Some(Files(chartFile, provFile)))
  }

  /** listCharts: GET <project>/charts. */
  function ListCharts(repoURL: string, projectName: string): Request<()>
  {
    Request(Get, WithPath(repoURL, [projectName, "charts"]), None, None)
  }

  /** getChartLabel: chart name in the repository slot, as in get. */
  function GetChartLabel(repoURL: string, projectName: string, chartName: string, chartVersion: string): Request<()>
  {
    Request(Get, WithPath(repoURL, [chartName, "charts", projectName, chartVersion, "labels"]), None, None)
  }

  /** deleteChartLabel: project name in the repository slot, then the label id. */
  function DeleteChartLabel(repoURL: string, projectName: string, chartName: string, chartVersion: string, id: int64): Request<()>
  {
    Request(Delete, WithPath(repoURL, [projectName, "charts", chartName, chartVersion, "labels", FormatInt(id)]), None, None)
  }

  /** attachLabel: POST the label record alone to the labels of the version. */
  function AttachLabel(repoURL: string, projectName: string, chartName: string, chartVersion: string, labelID: int64): Request<ChartLabel>
  {
    Request(Post, WithPath(repoURL, [projectName, "charts", chartName, chartVersion, "labels"]), None, Some(LabelOfID(labelID)))
  }

  /** Names that make one path segment each. */
  predicate Segment(s: string)
  {
    '/' !in s
  }

  lemma ChartsIsSegment()
    ensures Segment("charts") && Segment("labels")
  {
  }

  /** Get reads back as chart, charts, project, then the version exactly
      when one is given. */
  lemma GetChartsInfoPath(repoURL: string, projectName: string, chartName: string, chartVersion: string)
    requires Segment(projectName) && Segment(chartName) && Segment(chartVersion)
    ensures var r := GetChartsInfo(repoURL, projectName, chartName, chartVersion);
      r.call == Get &&
      HasSegments(r.url, repoURL,
        [chartName, "charts", projectName] + (if chartVersion != "" then [chartVersion] else []))
  {
    ChartsIsSegment();
    if chartVersion != "" {
      HasSegmentsOf(repoURL, [chartName, "charts", projectName, chartVersion]);
      assert [chartName, "charts", projectName] + [chartVersion] == [chartName, "charts", projectName, chartVersion];
    } else {
      HasSegmentsOf(repoURL, [chartName, "charts", projectName]);
      assert [chartName, "charts", projectName] + [] == [chartName, "charts", projectName];
    }
  }

  /** Delete reads back as project, charts, chart, then the version exactly
      when one is given. */
  lemma DeleteChartsInfoPath(repoURL: string, projectName: string, chartName: string, chartVersion: string)
    requires Segment(projectName) && Segment(chartName) && Segment(chartVersion)
    ensures var r := DeleteChartsInfo(repoURL, projectName, chartName, chartVersion);
      r.call == Delete &&
      HasSegments(r.url, repoURL,
        [projectName, "charts", chartName] + (if chartVersion != "" then [chartVersion] else []))
  {
    ChartsIsSegment();
    if chartVersion != "" {
      HasSegmentsOf(repoURL, [projectName, "charts", chartName, chartVersion]);
      assert [projectName, "charts", chartName] + [chartVersion] == [projectName, "charts", chartName, chartVersion];
    } else {
      HasSegmentsOf(repoURL, [projectName, "charts", chartName]);
      assert [projectName, "charts", chartName] + [] == [projectName, "charts", chartName];
    }
  }

  /** A version adds exactly "/<version>" to the path of get and of delete. */
  lemma VersionSegmentAppended(repoURL: string, projectName: string, chartName: string, chartVersion: string)
    requires chartVersion != ""
    ensures GetChartsInfo(repoURL, projectName, chartName, chartVersion).url ==
            GetChartsInfo(repoURL, projectName, chartName, "").url + "/" + chartVersion
    ensures DeleteChartsInfo(repoURL, projectName, chartName, chartVersion).url ==
            DeleteChartsInfo(repoURL, projectName, chartName, "").url + "/" + chartVersion
  {
    WithPathSnoc(repoURL, [chartName, "charts", projectName], chartVersion);
    assert [chartName, "charts", projectName] + [chartVersion] == [chartName, "charts", projectName, chartVersion];
    WithPathSnoc(repoURL, [projectName, "charts", chartName], chartVersion);
    assert [projectName, "charts", chartName] + [chartVersion] == [projectName, "charts", chartName, chartVersion];
  }

  /** The names in get and delete are swapped: get with project p and chart
      c goes to the path that delete uses for project c and chart p. */
  lemma GetDeleteSwapped(repoURL: string, p: string, c: string, chartVersion: string)
    ensures GetChartsInfo(repoURL, p, c, chartVersion).url == DeleteChartsInfo(repoURL, c, p, chartVersion).url
    ensures GetChartLabel(repoURL, p, c, chartVersion).url == AttachLabel(repoURL, c, p, chartVersion, 0).url
  {
  }

  /** Upload and list address the same collection, <project>/charts; upload
      passes both file names as given, an empty provenance name included. */
  lemma UploadListSameCollection(repoURL: string, projectName: string, chartFile: string, provFile: string)
    requires Segment(projectName)
    ensures var u := UploadChart(repoURL, projectName, chartFile, provFile);
      u.call == Multipart && u.url == ListCharts(repoURL, projectName).url &&
      u.body == Some(Files(chartFile, provFile)) &&
      ListCharts(repoURL, projectName).call == Get &&
      HasSegments(u.url, repoURL, [projectName, "charts"])
  {
    ChartsIsSegment();
    HasSegmentsOf(repoURL, [projectName, "charts"]);
  }

  /** The get-label path has the chart name first, as get does; the
      version segment is always there, empty or not. */
  lemma GetLabelPath(repoURL: string, projectName: string, chartName: string, chartVersion: string)
    requires Segment(projectName) && Segment(chartName) && Segment(chartVersion)
    ensures GetChartLabel(repoURL, projectName, chartName, chartVersion).call == Get
    ensures HasSegments(GetChartLabel(repoURL, projectName, chartName, chartVersion).url, repoURL,
                        [chartName, "charts", projectName, chartVersion, "labels"])
  {
    ChartsIsSegment();
    HasSegmentsOf(repoURL, [chartName, "charts", projectName, chartVersion, "labels"]);
  }

  /** The attach path has the project name first; the version segment is
      always there, empty or not. */
  lemma AttachLabelPath(repoURL: string, projectName: string, chartName: string, chartVersion: string, id: int64)
    requires Segment(projectName) && Segment(chartName) && Segment(chartVersion)
    ensures HasSegments(AttachLabel(repoURL, projectName, chartName, chartVersion, id).url, repoURL,
                        [projectName, "charts", chartName, chartVersion, "labels"])
  {
    ChartsIsSegment();
    HasSegmentsOf(repoURL, [projectName, "charts", chartName, chartVersion, "labels"]);
  }

  /** Delete is the attach path plus one segment that reads back as the id. */
  lemma DeleteLabelPath(repoURL: string, projectName: string, chartName: string, chartVersion: string, id: int64)
    ensures DeleteChartLabel(repoURL, projectName, chartName, chartVersion, id).call == Delete
    ensures EndsWithId(DeleteChartLabel(repoURL, projectName, chartName, chartVersion, id).url,
                       AttachLabel(repoURL, projectName, chartName, chartVersion, id).url + "/", id)
  {
    var segs := [projectName, "charts", chartName, chartVersion, "labels"];
    WithPathSnoc(repoURL, segs, FormatInt(id));
    assert segs + [FormatInt(id)] == [projectName, "charts", chartName, chartVersion, "labels", FormatInt(id)];
    EndsWithIdOf(WithPath(repoURL, segs) + "/", id);
  }

  /** The attach body is the label record alone: it names the label and
      nothing of the project, chart or version, which only reach the path. */
  lemma AttachBodyIsLabelOnly(repoURL: string, projectName: string, chartName: string, chartVersion: string,
                              otherProject: string, otherChart: string, otherVersion: string, labelID: int64)
    ensures AttachLabel(repoURL, projectName, chartName, chartVersion, labelID).call == Post
    ensures AttachLabel(repoURL, projectName, chartName, chartVersion, labelID).body ==
            AttachLabel(repoURL, otherProject, otherChart, otherVersion, labelID).body ==
            Some(LabelOfID(labelID))
  {
  }
}
