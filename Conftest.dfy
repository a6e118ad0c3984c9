/** tests/conftest.py: the report hook that turns each test's outcome into a
    record of the session reporter, the order of the session fixture, and
    the metric written when the session finishes. The clock, the screenshot
    file and the driver are inputs. */
module Conftest {
  import opened Wrappers
  import opened EnhancedReporting
  import opened Text

  /** The phase a pytest report belongs to (`rep.when`). */
  datatype Phase = Setup | Call | Teardown

  /** `rep.passed`, `rep.failed`, or neither (skipped). */
  datatype Verdict = PassedVerdict | FailedVerdict | SkippedVerdict

  /** A pytest report: its phase, verdict and `longrepr` text (`None` when
      there is none; an empty text is falsy like a missing one). */
  datatype Report = Report(when: Phase, verdict: Verdict, longrepr: Option<string>)

  /** `str(rep.longrepr) if rep.longrepr else default`. */
  function LongreprOr(longrepr: Option<string>, default: Option<string>): Option<string>
  {
    if longrepr.Some? && longrepr.value != [] then longrepr else default
  }

  const TestFailedMessage := "Test failed"

  /** The status and error message the hook records: a passed test has no
      error; a failed one always has one, its report text or "Test failed";
      anything else is skipped, with its report text if any. */
  function StatusAndError(verdict: Verdict, longrepr: Option<string>): (r: (string, Option<string>))
    ensures r.0 == Passed || r.0 == Failed || r.0 == Skipped
    ensures r.0 == Passed <==> verdict == PassedVerdict
    ensures r.0 == Failed <==> verdict == FailedVerdict
    ensures verdict == PassedVerdict ==> r.1.None?
    ensures verdict == FailedVerdict ==> r.1.Some? && r.1.value != []
    ensures verdict != PassedVerdict && longrepr.Some? && longrepr.value != [] ==> r.1 == longrepr
    ensures verdict == FailedVerdict && (longrepr.None? || longrepr.value == []) ==> r.1 == Some(TestFailedMessage)
    ensures verdict == SkippedVerdict && (longrepr.None? || longrepr.value == []) ==> r.1.None?
  {
    match verdict
    case PassedVerdict => (Passed, None)
    case FailedVerdict => (Failed, LongreprOr(longrepr, Some(TestFailedMessage)))
    case SkippedVerdict => (Skipped, LongreprOr(longrepr, None))
  }

  /** `f"test_{item.name}_duration"`. */
  function DurationKey(name: string): (k: string)
    ensures |k| == |name| + 14
    ensures k[..5] == "test_" && k[5..5 + |name|] == name && k[5 + |name|..] == "_duration"
  {
    "test_" + name + "_duration"
  }

  /** The screenshot `take_screenshot` saved for test `name`. */
  function FailureDescription(name: string): string
  {
    "Failure screenshot for " + name
  }

  /** The record the hook appends for a call-phase report: the status and
      error of StatusAndError, the measured duration, and the screenshot
      path when a failed test uses the browser. */
  function HookRecord(rep: Report, name: string, duration: real, hasBrowser: bool, shotPath: string): TestRecord
  {
    var (status, error) := StatusAndError(rep.verdict, rep.longrepr);
    TestRecord(name, status, StoredDuration(Some(duration)), error,
               if rep.verdict == FailedVerdict && hasBrowser then Some(shotPath) else None)
  }

  /** pytest_runtest_makereport: outside the call phase nothing is
      recorded. In the call phase exactly one result is appended, with the
      status and error of StatusAndError and the measured duration; a failed
      test whose fixtures include `browser_setup` gets the screenshot
      `shotPath`, registered when the file exists (`shotExists`); a positive
      duration is stored as the metric `test_<name>_duration`. */
  method MakeReport(reporter: EnhancedReporter, rep: Report, name: string, duration: real,
                    hasBrowser: bool, shotPath: string, shotExists: bool)
    modifies reporter
    ensures rep.when != Call ==>
      && reporter.testResults == old(reporter.testResults)
      && reporter.screenshots == old(reporter.screenshots)
      && reporter.performanceMetrics == old(reporter.performanceMetrics)
      && reporter.session == old(reporter.session)
    ensures rep.when == Call ==>
      var record := HookRecord(rep, name, duration, hasBrowser, shotPath);
      && reporter.testResults == old(reporter.testResults) + [record]
      && reporter.session == old(reporter.session) + [Recorded(record)]
    ensures rep.when == Call ==>
      && reporter.screenshots == old(reporter.screenshots)
           + (if rep.verdict == FailedVerdict && hasBrowser && shotExists then [Screenshot(shotPath, FailureDescription(name))] else [])
      && reporter.performanceMetrics ==
           (if duration > 0.0 then old(reporter.performanceMetrics)[DurationKey(name) := Metric(duration, DefaultUnit)]
            else old(reporter.performanceMetrics))
    ensures reporter.startTime == old(reporter.startTime) && reporter.endTime == old(reporter.endTime)
  {
    if rep.when != Call {
      return;
    }
    var (status, error) := StatusAndError(rep.verdict, rep.longrepr);
    var shot: Option<string> := None;
    if rep.verdict == FailedVerdict && hasBrowser {
      shot := Some(shotPath);
      reporter.AddScreenshot(shotPath, FailureDescription(name), shotExists);
    }
    reporter.AddTestResult(name, status, Some(duration), error, shot);
    if duration > 0.0 {
      reporter.AddPerformanceMetric(DurationKey(name), duration, DefaultUnit);
    }
  }

  // ---------------------------------------------------------------------------
  // The session fixture and the session-finish hook

  /** One test run as the hook sees it. */
  datatype TestRun = TestRun(name: string, report: Report, duration: real,
                             hasBrowser: bool, shotPath: string, shotExists: bool)

  /** The record the hook appends for a call-phase report of `t`. */
  function RecordOf(t: TestRun): TestRecord
  {
    HookRecord(t.report, t.name, t.duration, t.hasBrowser, t.shotPath)
  }

  /** The records the hook appends for `runs`: one per call-phase report. */
  function CallRecords(runs: seq<TestRun>): (rs: seq<TestRecord>)
    ensures |rs| <= |runs|
  {
    if runs == [] then []
    else
      var t := runs[|runs| - 1];
      CallRecords(runs[..|runs| - 1]) + (if t.report.when == Call then [RecordOf(t)] else [])
  }

  /** The number of call-phase reports with the given verdict. */
  function CallsWith(runs: seq<TestRun>, verdict: Verdict): (n: nat)
    ensures n <= |runs|
  {
    if runs == [] then 0
    else
      var t := runs[|runs| - 1];
      CallsWith(runs[..|runs| - 1], verdict) + if t.report.when == Call && t.report.verdict == verdict then 1 else 0
  }

  /** The reporter's counts follow the reports: passed, failed and skipped
      records are the call-phase reports of each verdict, and together they
      are all the records. */
  lemma {:induction false} RecordsMatchReports(runs: seq<TestRun>)
    ensures CountStatus(CallRecords(runs), Passed) == CallsWith(runs, PassedVerdict)
    ensures CountStatus(CallRecords(runs), Failed) == CallsWith(runs, FailedVerdict)
    ensures CountStatus(CallRecords(runs), Skipped) == CallsWith(runs, SkippedVerdict)
    ensures CountStatus(CallRecords(runs), Passed) + CountStatus(CallRecords(runs), Failed)
            + CountStatus(CallRecords(runs), Skipped) == |CallRecords(runs)|
  {
    if runs != [] {
      var front := runs[..|runs| - 1];
      RecordsMatchReports(front);
      var t := runs[|runs| - 1];
      var rs := CallRecords(front);
      if t.report.when == Call {
        var r := RecordOf(t);
        assert CallRecords(runs) == rs + [r];
        AppendedResultCounted(rs, r, Passed);
        AppendedResultCounted(rs, r, Failed);
        AppendedResultCounted(rs, r, Skipped);
      } else {
        assert CallRecords(runs) == rs + [];
        assert rs + [] == rs;
      }
    }
  }

  /** The session fixture with the tests it serves: the reporter's session
      starts at `startNow`, every call-phase report of the tests is recorded
      through the report hook, the session ends at `endNow`, and then the
      HTML and the JSON report are written, in that order. Both reports see
      every call-phase record, and the session lasts `endNow - startNow`. */
  method BrowserSetup(reporter: EnhancedReporter, startNow: real, endNow: real, runs: seq<TestRun>)
    returns (html: Summary, json: Summary)
    modifies reporter
    ensures reporter.session == old(reporter.session) + [Started(startNow)] + RecordEvents(CallRecords(runs))
                                + [Ended(endNow), HtmlReportWritten(html), JsonReportWritten(json)]
    ensures reporter.testResults == old(reporter.testResults) + CallRecords(runs)
    ensures reporter.startTime == Some(startNow) && reporter.endTime == Some(endNow)
    ensures html == json == HtmlSummary(reporter.testResults, Some(startNow), Some(endNow))
    ensures html.sessionDuration == endNow - startNow
  {
    reporter.StartSession(startNow);
    RunTests(reporter, runs);
    reporter.EndSession(endNow);
    var totalDuration;
    html, totalDuration := reporter.GenerateHtmlReport();
    json := reporter.GenerateJsonReport();
    SummariesAgree(reporter.testResults, reporter.startTime, reporter.endTime);
  }

  /** The `yield` of the session fixture: every test goes through the report
      hook in turn, so exactly the call-phase records are appended, in
      order, and the session times stay as they were. */
  method RunTests(reporter: EnhancedReporter, runs: seq<TestRun>)
    modifies reporter
    ensures reporter.testResults == old(reporter.testResults) + CallRecords(runs)
    ensures reporter.session == old(reporter.session) + RecordEvents(CallRecords(runs))
    ensures reporter.startTime == old(reporter.startTime) && reporter.endTime == old(reporter.endTime)
  {
    for i := 0 to |runs|
      invariant reporter.testResults == old(reporter.testResults) + CallRecords(runs[..i])
      invariant reporter.session == old(reporter.session) + RecordEvents(CallRecords(runs[..i]))
      invariant reporter.startTime == old(reporter.startTime) && reporter.endTime == old(reporter.endTime)
    {
      var t := runs[i];
      ghost var rs := CallRecords(runs[..i]);
      ghost var added: seq<TestRecord> := if t.report.when == Call then [RecordOf(t)] else [];
      ghost var results := reporter.testResults;
      ghost var session := reporter.session;
      MakeReport(reporter, t.report, t.name, t.duration, t.hasBrowser, t.shotPath, t.shotExists);
      assert reporter.testResults == results + added;
      assert reporter.session == session + RecordEvents(added) by {
        if added != [] {
          assert added[..0] == [];
        }
      }
      CallRecordsStep(runs, i);
      RecordEventsAppend(rs, added);
      AppendAssoc(old(reporter.testResults), rs, added);
      AppendAssoc(old(reporter.session), RecordEvents(rs), RecordEvents(added));
    }
    assert runs[..|runs|] == runs;
  }

  lemma CallRecordsStep(runs: seq<TestRun>, i: nat)
    requires i < |runs|
    ensures CallRecords(runs[..i + 1]) ==
      CallRecords(runs[..i]) + if runs[i].report.when == Call then [RecordOf(runs[i])] else []
  {
    assert runs[..i + 1][..i] == runs[..i];
  }

  const TestsCollectedMetric := "total_tests_collected"
  const TestsUnit := "tests"

  /** pytest_sessionfinish: when the session knows how many tests it
      collected, that number is stored under `total_tests_collected` with the
      unit "tests"; otherwise nothing changes. */
  method SessionFinish(reporter: EnhancedReporter, testsCollected: Option<nat>)
    modifies reporter
    ensures reporter.performanceMetrics ==
      if testsCollected.Some? then old(reporter.performanceMetrics)[TestsCollectedMetric := Metric(testsCollected.value as real, TestsUnit)]
      else old(reporter.performanceMetrics)
    ensures reporter.testResults == old(reporter.testResults) && reporter.screenshots == old(reporter.screenshots)
    ensures reporter.startTime == old(reporter.startTime) && reporter.endTime == old(reporter.endTime)
    ensures reporter.session == old(reporter.session)
  {
    if testsCollected.Some? {
      reporter.AddPerformanceMetric(TestsCollectedMetric, testsCollected.value as real, TestsUnit);
    }
  }
}
