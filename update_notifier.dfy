/**
  `UpdateNotifier`: the decisions of `process_and_notify` and its helpers,
  over the line list of a report (the file reading is left to the caller,
  which passes None for a file that could not be read) and a `SlackClient`
  whose answers are scripted.

  `Plan` is the reference description of a run: the messages posted, in
  order, as a function of the report and of the answer to the main message.
 */
module UpdateNotifier {
  import opened Wrappers
  import opened Text
  import opened ContentParser
  import opened MessageFormatter
  import opened Slack

  /** The reasons `_send_error_message` is given. */
  function FileMessage(inputFile: string): string {
    "File " + inputFile + " does not exist or is not readable"
  }
  const NoSubjectMessage := "No Subject line found in input file"
  const NoContentMessage := "No valid content section found in input file"

  /** The note posted into the thread when no installation log range was found. */
  const NoLogsNote := "*Note:* No package installation logs were found during this run"

  /**
    `xs[start:stop]` for a non-negative `start`: a negative `stop` counts from
    the end, and both bounds are clamped to the list.
   */
  function PySlice<T>(xs: seq<T>, start: nat, stop: int): (r: seq<T>)
    ensures forall k :: 0 <= k < |r| ==> start + k < |xs| && r[k] == xs[start + k]
    ensures 0 <= stop <= |xs| ==> |r| == if start < stop then stop - start else 0
  {
    var hi := if stop < 0 then (if stop + |xs| < 0 then 0 else stop + |xs|)
      else if stop < |xs| then stop else |xs|;
    if start < hi then xs[start..hi] else []
  }

  /** `''.join(lines[start:end + 1])`. */
  function Joined(lines: seq<string>, start: nat, end: int): string {
    Concat(PySlice(lines, start, end + 1))
  }

  /** A joined range within the list is empty exactly when every line in it is. */
  lemma JoinedEmpty(lines: seq<string>, start: nat, end: int)
    requires -1 <= end < |lines|
    ensures Joined(lines, start, end) == "" <==> forall k :: start <= k <= end ==> lines[k] == ""
  {
    var part := PySlice(lines, start, end + 1);
    ConcatEmpty(part);
    assert forall k :: start <= k <= end ==> lines[k] == part[k - start];
  }

  /** A joined range within the list is blank exactly when every line in it is. */
  lemma JoinedBlank(lines: seq<string>, start: nat, end: int)
    requires -1 <= end < |lines|
    ensures AllSpace(Joined(lines, start, end)) <==> forall k :: start <= k <= end ==> AllSpace(lines[k])
  {
    var part := PySlice(lines, start, end + 1);
    ConcatAllSpace(part);
    assert forall k :: start <= k <= end ==> lines[k] == part[k - start];
  }

  /** The payloads the notifier posts into the main message's thread: the details, the log and the note. */
  predicate InThread(p: Payload) {
    p.Details? || p.InstallLog? || p.Plain?
  }

  /** The message `_send_error_message(message)` posts: an error card, outside any thread. */
  function ErrorNotice(message: string): Message {
    Message(ErrorReport(message), None)
  }

  /** The log range `_send_log_content` accepts: both bounds, in order. */
  predicate LogRangeOk(span: Span) {
    span.start.Some? && span.end.Some? && span.start.value <= span.end.value
  }

  /** The note is short enough to go out as a single post. */
  lemma NoteFits()
    ensures |NoLogsNote| <= SlackMaxChars
  {
  }

  /** What `_send_log_content(lines, ts)` posts. */
  function LogPlan(lines: seq<string>, ts: string): seq<Message> {
    var span := LogIndices(lines);
    if LogRangeOk(span) then
      var log := Joined(lines, span.start.value, span.end.value);
      if Strip(log) != "" then [Message(InstallLog(log), ThreadOf(Some(ts)))] else []
    else [Message(Plain(NoLogsNote), ThreadOf(Some(ts)))]
  }

  /** What `_send_thread_messages(content, lines, ts)` posts. */
  function ThreadPlan(content: string, lines: seq<string>, ts: string): seq<Message> {
    [Message(Details(content), ThreadOf(Some(ts)))] + LogPlan(lines, ts)
  }

  /** What `_send_notifications` posts when the main message is answered `reply`. */
  function NotificationPlan(subject: string, content: string, lines: seq<string>, reply: Option<string>): seq<Message> {
    [Message(Main(subject, content), None)]
      + (if Truthy(reply) then ThreadPlan(content, lines, reply.value) else [])
  }

  /**
    What `process_and_notify` posts for the report `input` (None when the
    file could not be read), when the first post is answered `reply`.
   */
  function Plan(inputFile: string, input: Option<seq<string>>, reply: Option<string>): seq<Message> {
    match input
    case None => [ErrorNotice(FileMessage(inputFile))]
    case Some(lines) => ReportPlan(lines, reply)
  }

  /** What `process_and_notify` posts for a report that could be read. */
  function ReportPlan(lines: seq<string>, reply: Option<string>): seq<Message> {
    var subject := SubjectOf(lines);
    if !Truthy(subject) then [ErrorNotice(NoSubjectMessage)]
    else ContentPlan(subject.value, lines, reply)
  }

  /** What `process_and_notify` posts once the subject is known. */
  function ContentPlan(subject: string, lines: seq<string>, reply: Option<string>): seq<Message> {
    var span := ContentIndices(lines);
    if span.start.None? || span.end.None? then [ErrorNotice(NoContentMessage)]
    else
      var content := Joined(lines, span.start.value, span.end.value);
      if content == "" then []
      else NotificationPlan(subject, content, lines, reply)
  }

  /**
    The log decision: with both bounds in order the joined log is posted,
    otherwise the note is; either goes into the thread. The check that the
    joined log is not blank never fails, because the range opens with the
    `Package installation log:` line itself.
   */
  lemma LogDecision(lines: seq<string>, ts: string)
    ensures var span := LogIndices(lines); var plan := LogPlan(lines, ts);
      && |plan| == 1 && plan[0].thread == ThreadOf(Some(ts))
      && (LogRangeOk(span) ==> plan[0].payload == InstallLog(Joined(lines, span.start.value, span.end.value)))
      && (!LogRangeOk(span) ==> plan[0].payload == Plain(NoLogsNote))
  {
    var span := LogIndices(lines);
    if LogRangeOk(span) {
      LogNotBlank(lines, span.start.value, span.end.value);
    }
  }

  /** A log range that opens with its header line is never blank. */
  lemma LogNotBlank(lines: seq<string>, s: nat, e: int)
    requires s <= e < |lines| && IsLogStart(lines[s])
    ensures !AllSpace(Joined(lines, s, e))
  {
    JoinedBlank(lines, s, e);
    assert lines[s][0] == LogStartPrefix[0];
  }

  /**
    In terms of the report's lines: the log is posted exactly when the first
    `Package installation log:` line comes no later than one before the last
    `Log ended:` line, and the note exactly when they are the wrong way round.
   */
  lemma LogDecisionLines(lines: seq<string>, ts: string, s: nat, e: int)
    requires s < |lines| && IsLogStart(lines[s]) && forall j :: 0 <= j < s ==> !IsLogStart(lines[j])
    requires -1 <= e && e + 1 < |lines| && IsLogEnd(lines[e + 1])
    requires forall j :: e + 1 < j < |lines| ==> !IsLogEnd(lines[j])
    ensures LogPlan(lines, ts)[0].payload.InstallLog? <==> s <= e
    ensures LogPlan(lines, ts)[0].payload == Plain(NoLogsNote) <==> e < s
  {
    var span := LogIndices(lines);
    assert !(span.start.value < s) && !(s < span.start.value);
    assert !(span.end.value < e) && !(e < span.end.value);
    LogDecision(lines, ts);
  }

  /** A report without any `Package installation log:` or `Log ended:` line gets the note. */
  lemma MissingLogMarkerGetsNote(lines: seq<string>, ts: string)
    requires (forall j :: 0 <= j < |lines| ==> !IsLogStart(lines[j]))
      || (forall j :: 0 <= j < |lines| ==> !IsLogEnd(lines[j]))
    ensures LogPlan(lines, ts) == [Message(Plain(NoLogsNote), ThreadOf(Some(ts)))]
  {
  }

  /** A `Subject:` line whose remainder strips to nothing counts as no subject. */
  lemma SubjectRequired(inputFile: string, lines: seq<string>, reply: Option<string>)
    requires (forall j :: 0 <= j < |lines| ==> !IsSubjectLine(lines[j]))
      || exists i :: (0 <= i < |lines| && IsSubjectLine(lines[i]) && Strip(lines[i][|SubjectPrefix|..]) == ""
        && forall j :: i < j < |lines| ==> !IsSubjectLine(lines[j]))
    ensures Plan(inputFile, Some(lines), reply) == [ErrorNotice(NoSubjectMessage)]
  {
    NoTruthySubject(lines);
  }

  lemma NoTruthySubject(lines: seq<string>)
    requires (forall j :: 0 <= j < |lines| ==> !IsSubjectLine(lines[j]))
      || exists i :: (0 <= i < |lines| && IsSubjectLine(lines[i]) && Strip(lines[i][|SubjectPrefix|..]) == ""
        && forall j :: i < j < |lines| ==> !IsSubjectLine(lines[j]))
    ensures !Truthy(SubjectOf(lines))
  {
    MatchesOne(SubjectPrefix);
    if forall j :: 0 <= j < |lines| ==> !IsSubjectLine(lines[j]) {
      assert LastMatching(lines, [SubjectPrefix]) == None;
    } else {
      var i :| 0 <= i < |lines| && IsSubjectLine(lines[i]) && Strip(lines[i][|SubjectPrefix|..]) == ""
        && forall j :: i < j < |lines| ==> !IsSubjectLine(lines[j]);
      LastMatchingIs(lines, [SubjectPrefix], i);
      assert SubjectOf(lines) == Some(SubjectText(lines[i]));
    }
  }

  /** How `ContentPlan` ends: the content error, silence, or the notifications. */
  lemma ContentPlanOutcome(subject: string, lines: seq<string>, reply: Option<string>)
    ensures var span := ContentIndices(lines); var plan := ContentPlan(subject, lines, reply);
      && (span.start.None? || span.end.None? ==> plan == [ErrorNotice(NoContentMessage)])
      && (span.start.Some? && span.end.Some? && Joined(lines, span.start.value, span.end.value) == "" ==> plan == [])
      && (span.start.Some? && span.end.Some? && Joined(lines, span.start.value, span.end.value) != "" ==>
        plan == NotificationPlan(subject, Joined(lines, span.start.value, span.end.value), lines, reply))
  {
  }

  /**
    The notifications: the main message outside any thread, then, only when
    it was answered with a truthy timestamp, the thread messages in that thread.
   */
  lemma NotificationShape(subject: string, content: string, lines: seq<string>, reply: Option<string>)
    ensures var plan := NotificationPlan(subject, content, lines, reply);
      && plan != [] && plan[0] == Message(Main(subject, content), None)
      && (!Truthy(reply) ==> |plan| == 1)
      && (Truthy(reply) ==> plan[1..] == ThreadPlan(content, lines, reply.value))
  {
  }

  /**
    With a subject but no content start line, the run reports the missing
    content section, whether or not an end marker exists.
   */
  lemma ContentStartRequired(inputFile: string, lines: seq<string>, reply: Option<string>)
    requires Truthy(SubjectOf(lines))
    requires forall j :: 0 <= j < |lines| ==> !IsContentStart(lines[j])
    ensures Plan(inputFile, Some(lines), reply) == [ErrorNotice(NoContentMessage)]
  {
    ContentIndicesShape(lines);
    ContentPlanOutcome(SubjectOf(lines).value, lines, reply);
  }

  /**
    When the last end marker is at or before the last start line, `end < start`:
    the content is empty and, given a truthy subject, the run posts nothing at
    all, not even an error.
   */
  lemma InvertedRangeIsSilent(inputFile: string, lines: seq<string>, reply: Option<string>, s: nat, k: nat)
    requires Truthy(SubjectOf(lines))
    requires s < |lines| && IsContentStart(lines[s]) && forall j :: s < j < |lines| ==> !IsContentStart(lines[j])
    requires k <= s && IsContentEnd(lines[k]) && forall j :: k < j < |lines| ==> !IsContentEnd(lines[j])
    ensures Plan(inputFile, Some(lines), reply) == []
  {
    InvertedSpan(lines, s, k);
    ContentPlanOutcome(SubjectOf(lines).value, lines, reply);
  }

  /** The content range when the last end marker is at or before the last start line, and its empty join. */
  lemma InvertedSpan(lines: seq<string>, s: nat, k: nat)
    requires s < |lines| && IsContentStart(lines[s]) && forall j :: s < j < |lines| ==> !IsContentStart(lines[j])
    requires k <= s && IsContentEnd(lines[k]) && forall j :: k < j < |lines| ==> !IsContentEnd(lines[j])
    ensures ContentIndices(lines) == Span(Some(s), Some(k - 1))
    ensures Joined(lines, s, k - 1) == ""
  {
    InvertedSpanWith(lines, ContentStartPrefixes, ContentEndPrefixes, s, k);
    assert PySlice(lines, s, k) == [];
  }

  lemma InvertedSpanWith(lines: seq<string>, starts: seq<string>, ends: seq<string>, s: nat, k: nat)
    requires s < |lines| && MatchesAny(lines[s], starts) && forall j :: s < j < |lines| ==> !MatchesAny(lines[j], starts)
    requires k <= s && MatchesAny(lines[k], ends) && forall j :: k < j < |lines| ==> !MatchesAny(lines[j], ends)
    ensures ContentIndicesWith(lines, starts, ends) == Span(Some(s), Some(k - 1))
  {
    LastMatchingIs(lines, starts, s);
    LastMatchingIs(lines, ends, k);
  }

  /**
    With a subject and a start line but no end marker, the content runs to
    the last non-blank line, so it is never empty and the main message goes out.
   */
  lemma FallbackContentIsSent(inputFile: string, lines: seq<string>, reply: Option<string>)
    requires Truthy(SubjectOf(lines))
    requires exists j :: 0 <= j < |lines| && IsContentStart(lines[j])
    requires forall j :: 0 <= j < |lines| ==> !IsContentEnd(lines[j])
    ensures var plan := Plan(inputFile, Some(lines), reply);
      plan != [] && plan[0].payload.Main? && plan[0].thread.None?
  {
    ContentIndicesShape(lines);
    var span := ContentIndices(lines);
    var content := Joined(lines, span.start.value, span.end.value);
    JoinedEmpty(lines, span.start.value, span.end.value);
    assert lines[span.end.value] != "";
    ContentPlanOutcome(SubjectOf(lines).value, lines, reply);
    NotificationShape(SubjectOf(lines).value, content, lines, reply);
  }

  /**
    The run posts nothing exactly when the report was read, has a subject and
    a content range, and every line of that range is empty.
   */
  lemma SilentExactly(inputFile: string, input: Option<seq<string>>, reply: Option<string>)
    ensures Plan(inputFile, input, reply) == [] <==>
      (input.Some? && Truthy(SubjectOf(input.value))
       && ContentIndices(input.value).start.Some? && ContentIndices(input.value).end.Some?
       && forall k :: ContentIndices(input.value).start.value <= k <= ContentIndices(input.value).end.value
            ==> input.value[k] == "")
  {
    if input.Some? && Truthy(SubjectOf(input.value)) {
      var lines := input.value;
      ContentIndicesShape(lines);
      var span := ContentIndices(lines);
      ContentPlanOutcome(SubjectOf(lines).value, lines, reply);
      if span.start.Some? && span.end.Some? {
        JoinedEmpty(lines, span.start.value, span.end.value);
        NotificationShape(SubjectOf(lines).value, Joined(lines, span.start.value, span.end.value), lines, reply);
      }
    }
  }

  /**
    The shape of every run: an error report is only ever posted alone;
    otherwise the first post is the main message, outside any thread; nothing
    goes into a thread unless the main message was answered with a truthy
    timestamp, and then everything after it goes into that thread, the update
    details first.
   */
  predicate Shaped(plan: seq<Message>, reply: Option<string>) {
    && (plan != [] && plan[0].payload.ErrorReport? ==> |plan| == 1 && plan[0].thread.None?)
    && (plan != [] && !plan[0].payload.ErrorReport? ==> plan[0].payload.Main? && plan[0].thread.None?)
    && (!Truthy(reply) ==> |plan| <= 1)
    && (Truthy(reply) && |plan| > 1 ==> |plan| == 3 && plan[1].payload.Details?)
    && (forall k :: 1 <= k < |plan| ==> Truthy(reply) && plan[k].thread == reply && InThread(plan[k].payload))
  }

  /** Every run has that shape. */
  lemma PlanShape(inputFile: string, input: Option<seq<string>>, reply: Option<string>)
    ensures Shaped(Plan(inputFile, input, reply), reply)
  {
    if input.Some? && Truthy(SubjectOf(input.value)) {
      ContentPlanShape(SubjectOf(input.value).value, input.value, reply);
    }
  }

  lemma ContentPlanShape(subject: string, lines: seq<string>, reply: Option<string>)
    ensures Shaped(ContentPlan(subject, lines, reply), reply)
  {
    var span := ContentIndices(lines);
    ContentPlanOutcome(subject, lines, reply);
    if span.start.Some? && span.end.Some? {
      var content := Joined(lines, span.start.value, span.end.value);
      if content != "" {
        NotificationShape(subject, content, lines, reply);
        var plan := NotificationPlan(subject, content, lines, reply);
        if Truthy(reply) {
          ThreadPlanShape(content, lines, reply.value);
          assert forall k :: 1 <= k < |plan| ==> plan[k] == plan[1..][k - 1];
        }
      }
    }
  }

  /** The thread holds the update details and at most one more message, all in the thread. */
  lemma ThreadPlanShape(content: string, lines: seq<string>, ts: string)
    requires ts != ""
    ensures var thread := ThreadPlan(content, lines, ts);
      && |thread| == 2 && thread[0].payload == Details(content)
      && forall k :: 0 <= k < |thread| ==> thread[k].thread == Some(ts) && InThread(thread[k].payload)
  {
    LogDecision(lines, ts);
    var log := LogPlan(lines, ts);
    assert forall k :: 1 <= k < |ThreadPlan(content, lines, ts)| ==> ThreadPlan(content, lines, ts)[k] == log[k - 1];
  }

  /** The main message of a run is made from the last subject and the joined content range. */
  lemma MainMessageArguments(inputFile: string, lines: seq<string>, reply: Option<string>)
    requires Plan(inputFile, Some(lines), reply) != []
    requires !Plan(inputFile, Some(lines), reply)[0].payload.ErrorReport?
    ensures var span := ContentIndices(lines);
      && Truthy(SubjectOf(lines)) && span.start.Some? && span.end.Some?
      && Plan(inputFile, Some(lines), reply)[0]
        == Message(Main(SubjectOf(lines).value, Joined(lines, span.start.value, span.end.value)), None)
  {
    if Truthy(SubjectOf(lines)) {
      var span := ContentIndices(lines);
      ContentPlanOutcome(SubjectOf(lines).value, lines, reply);
      if span.start.Some? && span.end.Some? {
        NotificationShape(SubjectOf(lines).value, Joined(lines, span.start.value, span.end.value), lines, reply);
      }
    }
  }

  class UpdateNotifier {
    /** The Slack client every post goes through. */
    const client: SlackClient

    constructor (client: SlackClient)
      ensures this.client == client
    {
      this.client := client;
    }

    /** `_send_error_message(message)`: one error card, outside any thread. */
    method SendErrorMessage(message: string)
      modifies client
      ensures client.sent == old(client.sent) + [ErrorNotice(message)]
      ensures client.replies == Drop(old(client.replies), 1)
    {
      var ts := client.SendBlocks(ErrorReport(message), None);
    }

    /** `_extract_log_blocks_and_validate_content`: an unreadable file is reported. */
    method ExtractLogBlocksAndValidateContent(inputFile: string, input: Option<seq<string>>) returns (lines: Option<seq<string>>)
      modifies client
      ensures lines == input
      ensures input.None? ==>
        client.sent == old(client.sent) + [ErrorNotice(FileMessage(inputFile))]
        && client.replies == Drop(old(client.replies), 1)
      ensures input.Some? ==> client.sent == old(client.sent) && client.replies == old(client.replies)
    {
      if input.None? {
        SendErrorMessage(FileMessage(inputFile));
        return None;
      }
      return input;
    }

    /** `_extract_subject`: a missing or empty subject is reported. */
    method ExtractSubject(lines: seq<string>) returns (subject: Option<string>)
      modifies client
      ensures Truthy(SubjectOf(lines)) ==>
        subject == SubjectOf(lines) && client.sent == old(client.sent) && client.replies == old(client.replies)
      ensures !Truthy(SubjectOf(lines)) ==>
        subject.None? && client.sent == old(client.sent) + [ErrorNotice(NoSubjectMessage)]
        && client.replies == Drop(old(client.replies), 1)
    {
      subject := FindLastSubject(lines);
      if !Truthy(subject) {
        SendErrorMessage(NoSubjectMessage);
        return None;
      }
    }

    /** `_extract_main_content`: a missing bound is reported; otherwise the range is joined. */
    method ExtractMainContent(lines: seq<string>) returns (content: Option<string>)
      modifies client
      ensures var span := ContentIndices(lines);
        span.start.None? || span.end.None? ==>
          content.None? && client.sent == old(client.sent) + [ErrorNotice(NoContentMessage)]
          && client.replies == Drop(old(client.replies), 1)
      ensures var span := ContentIndices(lines);
        span.start.Some? && span.end.Some? ==>
          content == Some(Joined(lines, span.start.value, span.end.value))
          && client.sent == old(client.sent) && client.replies == old(client.replies)
    {
      var start, end := FindContentIndices(lines);
      assert ContentIndices(lines) == Span(start, end);
      if start.None? || end.None? {
        SendErrorMessage(NoContentMessage);
        return None;
      }
      content := Some(Concat(PySlice(lines, start.value, end.value + 1)));
    }

    /** `_send_log_content(lines, ts)`. */
    method SendLogContent(lines: seq<string>, ts: string)
      modifies client
      ensures client.sent == old(client.sent) + LogPlan(lines, ts)
      ensures client.replies == Drop(old(client.replies), |LogPlan(lines, ts)|)
    {
      var start, end := FindLogIndices(lines);
      if start.Some? && end.Some? && start.value <= end.value {
        var log := Concat(PySlice(lines, start.value, end.value + 1));
        assert log == Joined(lines, start.value, end.value);
        if Strip(log) != "" {
          assert LogPlan(lines, ts) == [Message(InstallLog(log), ThreadOf(Some(ts)))];
          var logTs := client.SendBlocks(InstallLog(log), Some(ts));
        }
      } else {
        assert LogPlan(lines, ts) == [Message(Plain(NoLogsNote), ThreadOf(Some(ts)))];
        NoteFits();
        var noteTs := client.SendSimpleMessage(NoLogsNote, Some(ts));
      }
    }

    /** `_send_thread_messages(content, lines, ts)`: the details, then the log decision. */
    method SendThreadMessages(content: string, lines: seq<string>, ts: string)
      modifies client
      ensures client.sent == old(client.sent) + ThreadPlan(content, lines, ts)
      ensures client.replies == Drop(old(client.replies), |ThreadPlan(content, lines, ts)|)
    {
      var updateTs := client.SendBlocks(Details(content), Some(ts));
      SendLogContent(lines, ts);
      DropDrop(old(client.replies), 1, |LogPlan(lines, ts)|);
    }

    /** `_send_notifications`: the main message, then the thread only if it was answered with a timestamp. */
    method SendNotifications(subject: string, content: string, lines: seq<string>)
      modifies client
      ensures var plan := NotificationPlan(subject, content, lines, Answer(old(client.replies)).ts);
        client.sent == old(client.sent) + plan && client.replies == Drop(old(client.replies), |plan|)
    {
      var threadTs := client.SendBlocks(Main(subject, content), None);
      if Truthy(threadTs) {
        SendThreadMessages(content, lines, threadTs.value);
        DropDrop(old(client.replies), 1, |ThreadPlan(content, lines, threadTs.value)|);
      }
    }

    /**
      `process_and_notify`, from the lines read (None when the file could not
      be read): each failed step posts its error report and ends the run; an
      empty content ends it without a word.
     */
    method ProcessAndNotify(inputFile: string, input: Option<seq<string>>)
      modifies client
      ensures var plan := Plan(inputFile, input, Answer(old(client.replies)).ts);
        client.sent == old(client.sent) + plan && client.replies == Drop(old(client.replies), |plan|)
    {
      ghost var reply := Answer(client.replies).ts;
      var lines := ExtractLogBlocksAndValidateContent(inputFile, input);
      if lines.None? {
        return;
      }
      assert Plan(inputFile, input, reply) == ReportPlan(lines.value, reply);
      var subject := ExtractSubject(lines.value);
      if !Truthy(subject) {
        return;
      }
      ContentPlanOutcome(subject.value, lines.value, reply);
      var content := ExtractMainContent(lines.value);
      if content.None? || content.value == "" {
        return;
      }
      SendNotifications(subject.value, content.value, lines.value);
    }
  }
}
