/**
  A worked report: the six lines of a run that found nothing to upgrade, the
  ranges the parser locates in it, and everything the notifier posts for it.
 */
module Scenarios {
  import opened Wrappers
  import opened Text
  import opened ContentParser
  import opened MessageFormatter
  import opened Slack
  import opened UpdateNotifier

  const Report: seq<string> := [
    "Subject: Test\n",
    "Starting unattended upgrades script\n",
    "No packages found that can be upgraded\n",
    "Package installation log:\n",
    "apt output here\n",
    "Log ended: ...\n"]

  /** A pattern is not a prefix of a line it differs from at index `i`. */
  lemma DiffersAt(p: string, line: string, i: nat)
    requires i < |p| && i < |line| && p[i] != line[i]
    ensures !(p <= line)
  {
  }

  /** A line matches none of `pats` when no pattern opens with the line's first character. */
  lemma OpensDifferently(line: string, pats: seq<string>)
    requires line != []
    requires forall i :: 0 <= i < |pats| ==> pats[i] != [] && pats[i][0] != line[0]
    ensures !MatchesAny(line, pats)
  {
    MatchesAnyIff(line, pats);
    forall p | p in pats
      ensures !(p <= line)
    {
      var i :| 0 <= i < |pats| && pats[i] == p;
    }
  }

  /** The last start line of the report is line 2. */
  lemma ReportStart()
    ensures LastMatching(Report, ContentStartPrefixes) == Some(2)
  {
    var line := Report[2];
    assert ContentStartPrefixes[2] <= line;
    MatchesAnyIff(line, ContentStartPrefixes);
    forall j | 2 < j < |Report|
      ensures !MatchesAny(Report[j], ContentStartPrefixes)
    {
      OpensDifferently(Report[j], ContentStartPrefixes);
    }
    LastMatchingIs(Report, ContentStartPrefixes, 2);
  }

  /** The last end line of the report is line 3. */
  lemma ReportEnd()
    ensures LastMatching(Report, ContentEndPrefixes) == Some(3)
  {
    var line := Report[3];
    assert ContentEndPrefixes[0] <= line;
    MatchesAnyIff(line, ContentEndPrefixes);
    forall j | 3 < j < |Report|
      ensures !MatchesAny(Report[j], ContentEndPrefixes)
    {
      OpensDifferently(Report[j], ContentEndPrefixes);
    }
    LastMatchingIs(Report, ContentEndPrefixes, 3);
  }

  /** The content section is line 2 alone: the last start line, and one before the log header. */
  lemma ReportContent()
    ensures ContentIndices(Report) == Span(Some(2), Some(2))
  {
    ReportStart();
    ReportEnd();
  }

  /** The log runs from the header, line 3, to line 4, one before `Log ended:`. */
  lemma ReportLog()
    ensures LogIndices(Report) == Span(Some(3), Some(4))
  {
    assert IsLogStart(Report[3]) && IsLogEnd(Report[5]);
    DiffersAt(LogStartPrefix, Report[0], 0);
    DiffersAt(LogStartPrefix, Report[1], 0);
    DiffersAt(LogStartPrefix, Report[2], 0);
    var span := LogIndices(Report);
    assert !(span.start.value < 3) && !(3 < span.start.value);
  }

  /** The only `Subject:` line of the report is line 0. */
  lemma ReportSubjectLine()
    ensures LastMatching(Report, [SubjectPrefix]) == Some(0)
  {
    MatchesOne(SubjectPrefix);
    forall j | 0 < j < |Report|
      ensures !(SubjectPrefix <= Report[j])
    {
      if j == 1 {
        DiffersAt(SubjectPrefix, Report[1], 1);
      } else {
        DiffersAt(SubjectPrefix, Report[j], 0);
      }
    }
    LastMatchingIs(Report, [SubjectPrefix], 0);
  }

  /** Stripping on the left drops the leading space. */
  lemma TrimLeftTest()
    ensures TrimLeft(" Test\n") == "Test\n"
  {
    var rest := " Test\n";
    assert IsSpace(rest[0]) && rest[1..] == "Test\n";
    assert !IsSpace("Test\n"[0]);
  }

  /** Stripping on the right drops the trailing newline. */
  lemma TrimRightTest()
    ensures TrimRight("Test\n") == "Test"
  {
    var left := "Test\n";
    assert IsSpace(left[|left| - 1]) && left[..|left| - 1] == "Test";
    assert !IsSpace("Test"[3]);
  }

  /** Stripping the remainder after `Subject:` on line 0 gives `Test`. */
  lemma StripTest()
    ensures Strip(" Test\n") == "Test"
  {
    TrimLeftTest();
    TrimRightTest();
  }

  /** The subject is `Test`. */
  lemma ReportSubject()
    ensures SubjectOf(Report) == Some("Test")
  {
    ReportSubjectLine();
    assert Report[0][|SubjectPrefix|..] == " Test\n";
    StripTest();
  }

  /** The report's joined content range, line 2 alone. */
  lemma ReportJoinedContent()
    ensures Joined(Report, 2, 2) == Report[2]
  {
    assert PySlice(Report, 2, 3) == [Report[2]];
  }

  /** The report's joined log range, lines 3 and 4. */
  lemma ReportJoinedLog()
    ensures Joined(Report, 3, 4) == Report[3] + Report[4]
  {
    assert PySlice(Report, 3, 5) == [Report[3], Report[4]];
    assert [Report[3], Report[4]][1..] == [Report[4]];
  }

  /** A run whose subject and content range are known posts the main message, then its thread. */
  lemma RunWithContent(inputFile: string, lines: seq<string>, ts: string, subject: string, s: nat, e: int)
    requires ts != "" && subject != "" && SubjectOf(lines) == Some(subject)
    requires ContentIndices(lines) == Span(Some(s), Some(e)) && Joined(lines, s, e) != ""
    ensures Plan(inputFile, Some(lines), Some(ts))
      == [Message(Main(subject, Joined(lines, s, e)), None)] + ThreadPlan(Joined(lines, s, e), lines, ts)
  {
    ContentPlanOutcome(subject, lines, Some(ts));
  }

  /** A thread whose log range is known holds the details, then that log. */
  lemma ThreadWithLog(content: string, lines: seq<string>, ts: string, s: nat, e: int)
    requires ts != "" && LogIndices(lines) == Span(Some(s), Some(e)) && s <= e
    ensures ThreadPlan(content, lines, ts)
      == [Message(Details(content), Some(ts)), Message(InstallLog(Joined(lines, s, e)), Some(ts))]
  {
    LogDecision(lines, ts);
  }

  /**
    The whole run for the report, when Slack answers the main message with
    the timestamp `ts`: the main message, then the details and the log, both
    in its thread.
   */
  lemma ReportRun(inputFile: string, ts: string)
    requires ts != ""
    ensures Plan(inputFile, Some(Report), Some(ts)) == [
      Message(Main("Test", Report[2]), None),
      Message(Details(Report[2]), Some(ts)),
      Message(InstallLog(Report[3] + Report[4]), Some(ts))]
  {
    var content := Report[2];
    var thread := [Message(Details(content), Some(ts)), Message(InstallLog(Report[3] + Report[4]), Some(ts))];
    assert Plan(inputFile, Some(Report), Some(ts)) == [Message(Main("Test", content), None)] + ThreadPlan(content, Report, ts) by {
      ReportSubject();
      ReportContent();
      ReportJoinedContent();
      RunWithContent(inputFile, Report, ts, "Test", 2, 2);
    }
    assert ThreadPlan(content, Report, ts) == thread by {
      ReportLog();
      ReportJoinedLog();
      ThreadWithLog(content, Report, ts, 3, 4);
    }
  }
}
