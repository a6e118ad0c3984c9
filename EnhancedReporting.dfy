/** utils/enhanced_reporting.py: the reporter that collects test results,
    performance metrics and screenshots during a session, and the summary
    statistics its HTML and JSON reports print. Clock readings are passed
    in; the report files themselves are not modelled. */
module EnhancedReporting {
  import opened Wrappers
  import opened Ratio

  /** One entry of `test_results`, the timestamp left out. */
  datatype TestRecord = TestRecord(testName: string, status: string, duration: real,
                                   errorMessage: Option<string>, screenshotPath: Option<string>)

  /** One value of `performance_metrics`, the timestamp left out. */
  datatype Metric = Metric(value: real, unit: string)

  /** One entry of `screenshots`, the timestamp left out. */
  datatype Screenshot = Screenshot(path: string, description: string)

  /** What the reporter was asked to do during a session, in order: the
      session start and end with their clock readings, each recorded result,
      and each report written with the figures it printed. */
  datatype SessionEvent = Started(at: real) | Recorded(record: TestRecord) | Ended(at: real)
                        | HtmlReportWritten(summary: Summary) | JsonReportWritten(summary: Summary)

  /** One `Recorded` event per record, in order. */
  function RecordEvents(rs: seq<TestRecord>): (es: seq<SessionEvent>)
    ensures |es| == |rs|
    ensures forall k :: 0 <= k < |rs| ==> es[k] == Recorded(rs[k])
  {
    if rs == [] then [] else RecordEvents(rs[..|rs| - 1]) + [Recorded(rs[|rs| - 1])]
  }

  /** The events of records logged one list after another. */
  lemma RecordEventsAppend(a: seq<TestRecord>, b: seq<TestRecord>)
    ensures RecordEvents(a + b) == RecordEvents(a) + RecordEvents(b)
  {
    var e := RecordEvents(a) + RecordEvents(b);
    assert forall k :: 0 <= k < |a + b| ==> e[k] == Recorded((a + b)[k]);
  }

  const Passed := "passed"
  const Failed := "failed"
  const Skipped := "skipped"
  const DefaultUnit := "seconds"

  /** `duration or 0`: a missing duration, like a zero one, is stored as 0. */
  function StoredDuration(duration: Option<real>): (d: real)
    ensures duration.None? ==> d == 0.0
    ensures duration.Some? ==> d == duration.value
  {
    if duration.Some? && duration.value != 0.0 then duration.value else 0.0
  }

  class EnhancedReporter {
    var testResults: seq<TestRecord>
    var performanceMetrics: map<string, Metric>
    var screenshots: seq<Screenshot>
    /** Clock readings of start_session and end_session, in seconds. */
    var startTime: Option<real>
    var endTime: Option<real>
    /** The session's start, results, end and reports, in the order they
        happened; metrics and screenshots are not logged. */
    ghost var session: seq<SessionEvent>

    /** A new reporter holds nothing and has no session times. */
    constructor ()
      ensures testResults == [] && performanceMetrics == map[] && screenshots == []
      ensures startTime.None? && endTime.None? && session == []
    {
      session := [];
      testResults := [];
      performanceMetrics := map[];
      screenshots := [];
      startTime := None;
      endTime := None;
    }

    /** start_session: records the clock reading `now`. */
    method StartSession(now: real)
      modifies this
      ensures startTime == Some(now)
      ensures testResults == old(testResults) && performanceMetrics == old(performanceMetrics)
      ensures screenshots == old(screenshots) && endTime == old(endTime)
      ensures session == old(session) + [Started(now)]
    {
      startTime := Some(now);
      session := session + [Started(now)];
    }

    /** end_session: records the clock reading `now`. */
    method EndSession(now: real)
      modifies this
      ensures endTime == Some(now)
      ensures testResults == old(testResults) && performanceMetrics == old(performanceMetrics)
      ensures screenshots == old(screenshots) && startTime == old(startTime)
      ensures session == old(session) + [Ended(now)]
    {
      endTime := Some(now);
      session := session + [Ended(now)];
    }

    /** add_test_result: appends exactly one record and changes nothing
        else. */
    method AddTestResult(name: string, status: string, duration: Option<real>,
                         errorMessage: Option<string>, screenshotPath: Option<string>)
      modifies this
      ensures testResults == old(testResults) + [TestRecord(name, status, StoredDuration(duration), errorMessage, screenshotPath)]
      ensures performanceMetrics == old(performanceMetrics) && screenshots == old(screenshots)
      ensures startTime == old(startTime) && endTime == old(endTime)
      ensures session == old(session) + [Recorded(TestRecord(name, status, StoredDuration(duration), errorMessage, screenshotPath))]
    {
      var r := TestRecord(name, status, StoredDuration(duration), errorMessage, screenshotPath);
      testResults := testResults + [r];
      session := session + [Recorded(r)];
    }

    /** add_performance_metric: the entry for `name` is replaced, whatever it
        held; every other key keeps its entry. */
    method AddPerformanceMetric(name: string, value: real, unit: string)
      modifies this
      ensures performanceMetrics == old(performanceMetrics)[name := Metric(value, unit)]
      ensures testResults == old(testResults) && screenshots == old(screenshots)
      ensures startTime == old(startTime) && endTime == old(endTime) && session == old(session)
    {
      performanceMetrics := performanceMetrics[name := Metric(value, unit)];
    }

    /** add_screenshot: appended only when the file `path` exists (`fileExists`
        is what the file system answers). */
    method AddScreenshot(path: string, description: string, fileExists: bool)
      modifies this
      ensures screenshots == old(screenshots) + if fileExists then [Screenshot(path, description)] else []
      ensures testResults == old(testResults) && performanceMetrics == old(performanceMetrics)
      ensures startTime == old(startTime) && endTime == old(endTime) && session == old(session)
    {
      if fileExists {
        screenshots := screenshots + [Screenshot(path, description)];
      }
    }

    /** generate_enhanced_html_report: the figures printed are those of the
        results and session times held now, and the total of the test
        durations; the page itself is not modelled. */
    method GenerateHtmlReport() returns (summary: Summary, totalDuration: real)
      modifies this
      ensures summary == HtmlSummary(testResults, startTime, endTime)
      ensures totalDuration == TotalDuration(testResults)
      ensures testResults == old(testResults) && performanceMetrics == old(performanceMetrics)
      ensures screenshots == old(screenshots) && startTime == old(startTime) && endTime == old(endTime)
      ensures session == old(session) + [HtmlReportWritten(summary)]
    {
      summary := HtmlSummary(testResults, startTime, endTime);
      totalDuration := TotalDuration(testResults);
      session := session + [HtmlReportWritten(summary)];
    }

    /** generate_json_report: the summary block of the JSON file, from the
        results and session times held now. */
    method GenerateJsonReport() returns (summary: Summary)
      modifies this
      ensures summary == JsonSummary(testResults, startTime, endTime)
      ensures testResults == old(testResults) && performanceMetrics == old(performanceMetrics)
      ensures screenshots == old(screenshots) && startTime == old(startTime) && endTime == old(endTime)
      ensures session == old(session) + [JsonReportWritten(summary)]
    {
      summary := JsonSummary(testResults, startTime, endTime);
      session := session + [JsonReportWritten(summary)];
    }
  }

  /** A metric written last is the one read back, and a write leaves every
      other key alone. */
  lemma LastMetricWins(m: map<string, Metric>, name: string, first: Metric, second: Metric)
    ensures m[name := first][name := second] == m[name := second]
    ensures forall k :: k in m && k != name ==> m[name := second][k] == m[k]
  {
  }

  // ---------------------------------------------------------------------------
  // Summary statistics

  /** `sum(1 for r in results if r["status"] == status)`. */
  function CountStatus(rs: seq<TestRecord>, status: string): (n: nat)
    ensures n <= |rs|
  {
    if rs == [] then 0
    else CountStatus(rs[..|rs| - 1], status) + if rs[|rs| - 1].status == status then 1 else 0
  }

  /** `sum(r["duration"] for r in results)`. */
  function TotalDuration(rs: seq<TestRecord>): real
  {
    if rs == [] then 0.0 else TotalDuration(rs[..|rs| - 1]) + rs[|rs| - 1].duration
  }

  /** Recording one more result raises the count of its status by one,
      leaves the other counts alone, and adds its duration to the total. */
  lemma AppendedResultCounted(rs: seq<TestRecord>, r: TestRecord, status: string)
    ensures CountStatus(rs + [r], status) == CountStatus(rs, status) + if r.status == status then 1 else 0
    ensures TotalDuration(rs + [r]) == TotalDuration(rs) + r.duration
  {
    assert (rs + [r])[..|rs|] == rs;
  }

  /** With durations that are never negative, neither is their total. */
  lemma {:induction false} TotalDurationNonNegative(rs: seq<TestRecord>)
    requires forall k :: 0 <= k < |rs| ==> rs[k].duration >= 0.0
    ensures TotalDuration(rs) >= 0.0
  {
    if rs != [] {
      var front := rs[..|rs| - 1];
      assert forall k :: 0 <= k < |front| ==> front[k] == rs[k];
      TotalDurationNonNegative(front);
    }
  }

  predicate KnownStatus(r: TestRecord) {
    r.status == Passed || r.status == Failed || r.status == Skipped
  }

  /** The passed, failed and skipped counts never exceed the total, and add
      up to it exactly when every status is one of the three. */
  lemma {:induction false} StatusCountsAddUp(rs: seq<TestRecord>)
    ensures CountStatus(rs, Passed) + CountStatus(rs, Failed) + CountStatus(rs, Skipped) <= |rs|
    ensures CountStatus(rs, Passed) + CountStatus(rs, Failed) + CountStatus(rs, Skipped) == |rs|
            <==> forall k :: 0 <= k < |rs| ==> KnownStatus(rs[k])
  {
    if rs != [] {
      var front := rs[..|rs| - 1];
      StatusCountsAddUp(front);
      assert forall k :: 0 <= k < |front| ==> rs[k] == front[k];
    }
  }

  /** The figures both reports print (the HTML report adds the total
      duration). */
  datatype Summary = Summary(totalTests: nat, passed: nat, failed: nat, skipped: nat,
                             successRate: real, sessionDuration: real)

  /** The session duration: end minus start once both are set, else 0. */
  function SessionDuration(start: Option<real>, end: Option<real>): (d: real)
    ensures start.None? || end.None? ==> d == 0.0
    ensures start.Some? && end.Some? ==> start.value + d == end.value
  {
    if start.Some? && end.Some? then end.value - start.value else 0.0
  }

  /** The statistics of generate_enhanced_html_report: the rate is guarded by
      `total_tests > 0`. */
  function HtmlSummary(rs: seq<TestRecord>, start: Option<real>, end: Option<real>): Summary
  {
    var total := |rs|;
    var passed := CountStatus(rs, Passed);
    Summary(total, passed, CountStatus(rs, Failed), CountStatus(rs, Skipped),
            if total > 0 then passed as real / total as real * 100.0 else 0.0,
            SessionDuration(start, end))
  }

  /** The statistics of generate_json_report: the rate is guarded by the list
      being non-empty. */
  function JsonSummary(rs: seq<TestRecord>, start: Option<real>, end: Option<real>): Summary
  {
    var passed := CountStatus(rs, Passed);
    Summary(|rs|, passed, CountStatus(rs, Failed), CountStatus(rs, Skipped),
            if rs != [] then passed as real / |rs| as real * 100.0 else 0.0,
            if start.Some? && end.Some? then end.value - start.value else 0.0)
  }

  /** Both reports print the same counts, rate and session duration. */
  lemma SummariesAgree(rs: seq<TestRecord>, start: Option<real>, end: Option<real>)
    ensures HtmlSummary(rs, start, end) == JsonSummary(rs, start, end)
  {
  }

  /** The success rate is 100 * passed / total, 0 without results, and lies
      within [0, 100]. */
  lemma SuccessRateInRange(rs: seq<TestRecord>, start: Option<real>, end: Option<real>)
    ensures HtmlSummary(rs, start, end).successRate == Percent(CountStatus(rs, Passed), |rs|)
    ensures 0.0 <= HtmlSummary(rs, start, end).successRate <= 100.0
    ensures rs == [] ==> HtmlSummary(rs, start, end).successRate == 0.0
  {
  }
}
