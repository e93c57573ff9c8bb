# notifyslack decision logic, in Dafny

This project models the decision logic of `notifyslack`. The tool reads the
report that unattended-upgrades mails after a run and posts a summary to
Slack. The model covers these parts:

- **ContentParser** (`content_parser.dfy`): the three line-boundary scans over
  the report's lines.
  - The last `Subject:` line.
  - The main content section: the last start marker, and one before the last
    end marker, or else the last non-blank line.
  - The package installation log: the first `Package installation log:` line,
    and one before the last `Log ended:` line.
- **ResultDeterminer** (`result_determiner.dfy`): the status table, the
  case-folded any-of / all-of pattern tests, `get_status`, and
  `is_reboot_required`. `get_status` checks an all-of override before a fixed
  priority list, and falls back to INFO.
- **MessageFormatter** (`message_formatter.dfy`, the source's
  `SlackMessageFormatter`): the decisions inside the main message.
  - The status line.
  - The reboot emoji and label, including the FAILED override of the emoji.
  - The `*Notify:*` mention text.
- **Slack** (`slack_client.dfy`, the source's `SlackClient`):
  - The line-greedy splitting of long texts (`_split_message`).
  - The part-by-part posting of a long simple message into a thread.
  - A transport object with two fields: what has been posted, and a script of
    the answers the Slack API gives.
- **UpdateNotifier** (`update_notifier.dfy`): the control flow of
  `process_and_notify` and its helpers, as methods of a class that posts
  through the client.
  - `Plan` is the reference description of a run. It is the list of messages
    posted, as a function of the report and of the answer to the first post.
  - Every method is proved to post exactly its part of that plan.
- **Scenarios** (`scenarios.dfy`): a worked six-line report, and the whole
  run the notifier makes of it.
- **Text** (`text.dfy`) and **Wrappers** (`wrappers.dfy`): `strip()` over
  Python's whitespace set, ASCII case folding, substring search,
  `''.join`/`sep.join`, `split('\n')`, and `Option`.

The scans, the splitting loop, the mention loop and the orchestration are
imperative in the source. They are methods with loops or state, proved
against specification functions. The classification is written as
expressions in the source, and it is functions and lemmas here.

Three facts the model makes explicit:

- **An inverted content range is silent.** `find_content_indices` does not
  promise `start <= end`. When the last end marker is at or before the last
  start line, `end < start` and the join is empty. Given a truthy subject, the
  run then posts nothing at all, not even an error (`InvertedRangeIsSilent`,
  `SilentExactly`).
- **`end` without `start`.** When no start line exists, `end` is still filled
  in from an end marker (`ContentIndicesShape`). The caller reports the missing
  section because `start` is None (`ContentStartRequired`).
- **The blank-log branch is dead code.** `_send_log_content` skips a log whose
  joined text is blank. That branch can never be taken: a valid log range opens
  with its own `Package installation log:` line (`LogNotBlank`, `LogDecision`).
  With both bounds in order, the log is always posted.

A worked report shows the ranges. Take these six lines:

```
Subject: Test
Starting unattended upgrades script
No packages found that can be upgraded
Package installation log:
apt output here
Log ended: ...
```

The code gives:

- the subject `Test`;
- content lines 2-2, because `No packages found` is also a start marker and the
  last start line wins;
- log lines 3-4, because the log ends one line before `Log ended:`.

When Slack answers the main message with a timestamp, the run posts the main
message, then the details and the two log lines in its thread (`ReportRun`).

## Model

| member | source | states |
|---|---|---|
| `ContentParser.FindLastSubject` | src/notifyslack.py:116-124 | the reverse scan returns exactly `SubjectOf(lines)` |
| `ContentParser.SubjectOf` | src/notifyslack.py:116-124 | what `find_last_subject` returns; its meaning is stated by `SubjectOfShape` |
| `ContentParser.SubjectOfShape` | src/notifyslack.py:116-124 | None iff no line starts with `Subject:`; otherwise the stripped remainder after the prefix on the highest-index such line |
| `ContentParser.SubjectText` | src/notifyslack.py:120 | `line.strip().split("Subject:", 1)[1].strip()` equals the remainder after the prefix of the unstripped line, stripped |
| `ContentParser.LastMatching` | src/notifyslack.py:145-161 | None iff no line matches; otherwise a matching index with no match after it |
| `ContentParser.FirstMatching` | src/notifyslack.py:179-182 | None iff no line matches; otherwise a matching index with no match before it |
| `ContentParser.LastNonBlank` | src/notifyslack.py:163-168 | None iff every line is blank; otherwise a non-blank index with only blank lines after it |
| `ContentParser.LastMatchingIs` | src/notifyslack.py:145-161 | a matching line with no match after it is the one `LastMatching` names |
| `ContentParser.LastNonBlankIs` | src/notifyslack.py:163-168 | a non-blank line with only blank lines after it is the one `LastNonBlank` names |
| `ContentParser.MatchesAnyIff` | src/notifyslack.py:149-158 | a line matches a list of `^literal` patterns iff one of them is its prefix |
| `ContentParser.MatchesOne` | src/notifyslack.py:119 | one `^literal` pattern matches exactly the lines it is a prefix of |
| `ContentParser.MatchesAnyPattern` | src/notifyslack.py:149-158 | the inner pattern loop with early break answers `MatchesAny` |
| `ContentParser.ScanContent` | src/notifyslack.py:126-175 | the single reverse pass with early break, then the fallback scan, returns exactly `ContentIndicesWith(lines, starts, ends)` for any pattern lists |
| `ContentParser.ContentIndicesWith` | src/notifyslack.py:143-175 | the span the content scan finds with given pattern lists; its meaning is stated by `ContentIndicesWithShape` and `ContentIndicesOrderFree` |
| `ContentParser.ContentIndices` | src/notifyslack.py:126-175 | what `find_content_indices` returns; its meaning is stated by `ContentIndicesShape` |
| `ContentParser.ScannedBackStep` | src/notifyslack.py:145-158 | one more line seen keeps a found line, or finds the first match |
| `ContentParser.ScannedBackResult` | src/notifyslack.py:160-161 | a scan that stopped early with a hit, or saw every line, found `LastMatching` |
| `ContentParser.ScanSettled` | src/notifyslack.py:145-168 | the values a finished scan holds are the start and end of `ContentIndicesWith` |
| `ContentParser.FindLastNonBlank` | src/notifyslack.py:163-168 | the fallback scan returns `LastNonBlank(lines)` |
| `ContentParser.FindContentIndices` | src/notifyslack.py:126-175 | `find_content_indices` returns `ContentIndices(lines)` |
| `ContentParser.ContentIndicesWithShape` | src/notifyslack.py:126-175 | start is the last start line (None iff there is none); end is one before the last end line whenever one exists; with no end line, end is the last non-blank line, at or after start, when start exists, and None otherwise; `-1 <= end < |lines|` |
| `ContentParser.ContentIndicesShape` | src/notifyslack.py:126-175 | the same for the declared start and end patterns |
| `ContentParser.ContentIndicesOrderFree` | src/notifyslack.py:131-141 | the order in which the patterns are declared never changes the result |
| `ContentParser.StartsOpenWithText` | src/notifyslack.py:131-136 | every start pattern opens with a non-whitespace character |
| `ContentParser.MatchedNonBlank` | src/notifyslack.py:164-168 | a start line is non-blank, so the fallback end is never before start |
| `ContentParser.LogIndices` | src/notifyslack.py:177-194 | start is the smallest index of a `Package installation log:` line; end is one before the largest `Log ended:` index; each is None exactly when its marker is absent |
| `ContentParser.FindLogIndices` | src/notifyslack.py:177-194 | the forward and reverse scans return `LogIndices(lines)` |
| `ResultDeterminer.StatusMapping` | src/notifyslack.py:227-270 | the entry looked up for a status carries that status |
| `ResultDeterminer.PatternsFolded` | src/notifyslack.py:227-270 | every table pattern is already case-folded |
| `ResultDeterminer.Matches` | src/notifyslack.py:214-217 | `UpdateResult.matches`; its meaning is stated by `AnyOccursIff` and `MatchesIgnoresCase` |
| `ResultDeterminer.MatchesAll` | src/notifyslack.py:219-222 | `UpdateResult.matches_all`; its meaning is stated by `AllOccurIff` and `MatchesIgnoresCase` |
| `ResultDeterminer.AnyOccursIff` | src/notifyslack.py:214-217 | `matches` holds iff some case-folded pattern occurs in the case-folded text |
| `ResultDeterminer.AllOccurIff` | src/notifyslack.py:219-222 | `matches_all` holds iff every case-folded pattern occurs in the case-folded text |
| `ResultDeterminer.EmptyPatterns` | src/notifyslack.py:263-268 | an empty pattern list never matches, and always matches all |
| `ResultDeterminer.MatchesIgnoresCase` | src/notifyslack.py:214-222 | both tests give the same answer on a text and on its case-folded form |
| `ResultDeterminer.FirstHitIsFirst` | src/notifyslack.py:284-286 | the priority loop finds nothing iff no status passes; otherwise a passing status all of whose predecessors fail |
| `ResultDeterminer.PriorityHit` | src/notifyslack.py:284-286 | the priority loop's first hit; its meaning is stated by `FirstHitIsFirst`, `PriorityHitUnrolled` and `PriorityOrder` |
| `ResultDeterminer.PriorityHitUnrolled` | src/notifyslack.py:284-286 | the loop tests FAILED, WARNING, SUCCESS, NO_UPDATES and INFO in that order |
| `ResultDeterminer.HitIsFound` | src/notifyslack.py:285 | the loop's test is "some pattern occurs in the subject alone or in the content alone" |
| `ResultDeterminer.MatchesAllIsOverride` | src/notifyslack.py:278-280 | the `matches_all` test on the joined text is "both phrases occur in `subject + " " + content`, case-folded" |
| `ResultDeterminer.GetStatus` | src/notifyslack.py:272-288 | the result is always a table entry |
| `ResultDeterminer.GetStatusCases` | src/notifyslack.py:272-288 | the override gives NO_UPDATES_REBOOT_PENDING; otherwise the loop's first hit, or INFO |
| `ResultDeterminer.OverrideWins` | src/notifyslack.py:278-281 | NO_UPDATES_REBOOT_PENDING is returned iff both override phrases occur, whatever else matches |
| `ResultDeterminer.PriorityOrder` | src/notifyslack.py:283-288 | without the override, each of FAILED, WARNING, SUCCESS and NO_UPDATES is returned iff it is found and no earlier one is; INFO iff none is found |
| `ResultDeterminer.GetStatusIgnoresCase` | src/notifyslack.py:272-277 | classification of a text and of its case-folded form agree |
| `ResultDeterminer.AnyInIff` | src/notifyslack.py:303-304 | the any-expression holds iff some pattern occurs in the subject or in the content |
| `ResultDeterminer.IsRebootRequired` | src/notifyslack.py:290-304 | `is_reboot_required`; its meaning is stated by `RebootIff` |
| `ResultDeterminer.RebootIff` | src/notifyslack.py:290-304 | `is_reboot_required` iff one of the four reboot patterns occurs in the case-folded subject or in the case-folded content |
| `ResultDeterminer.OverrideAcrossJoin` | src/notifyslack.py:278-304 | subject `Reboot` with content `required; no packages found that can be upgraded` is NO_UPDATES_REBOOT_PENDING and still reports no reboot: the override reads the join, the reboot check each part alone |
| `ResultDeterminer.WindowMisses` | src/notifyslack.py:303-304 | a text cannot contain a pattern when one of the pattern's characters is absent wherever an occurrence would put it |
| `MessageFormatter.MentionText` | src/notifyslack.py:326-332 | the loop that wraps each id and joins with `", "` returns `Mentions(ids)`, and `""` with no ids |
| `MessageFormatter.Wrap` | src/notifyslack.py:329 | `f"<{mention_id}>"`; its meaning is stated by `WrapAll` and `MentionsBracketed` |
| `MessageFormatter.Mentions` | src/notifyslack.py:326-332 | the wrapped ids joined by `", "`; its meaning is stated by `MentionText`, `MentionsEmpty`, `MentionsOne` and `MentionsSnoc` |
| `MessageFormatter.WrapAll` | src/notifyslack.py:328-329 | one wrapped `<id>` per id, in order |
| `MessageFormatter.MentionsEmpty` | src/notifyslack.py:326-332 | the mention text is empty iff there is no id |
| `MessageFormatter.MentionsOne` | src/notifyslack.py:326-330 | one id is mentioned as `<id>` |
| `MessageFormatter.MentionsSnoc` | src/notifyslack.py:326-330 | one more id appends `", <id>"` |
| `MessageFormatter.MentionsBracketed` | src/notifyslack.py:326-330 | a non-empty mention text opens with `<` and closes with `>` |
| `MessageFormatter.RebootEmoji` | src/notifyslack.py:320-324 | FAILED always shows `:warning:`; otherwise `:arrows_counterclockwise:` iff a reboot is required, and nothing otherwise |
| `MessageFormatter.RebootLabel` | src/notifyslack.py:352 | the `*Reboot:*` label, `Required` or `Not Required`; `MainCard` states that it follows `is_reboot_required` |
| `MessageFormatter.MainCard` | src/notifyslack.py:314-376 | the card shows `get_status`'s status, emoji and text, `is_reboot_required`, its emoji and label; `*Notify:*` is present iff the status has ids, with their mention text |
| `MessageFormatter.ErrorCard` | src/notifyslack.py:603-606 | the main card of the made-up `ERROR:` report; its meaning is stated by `ErrorCardFailed` |
| `MessageFormatter.ErrorCardFailed` | src/notifyslack.py:589-606 | the made-up error report is classified FAILED, with the FAILED reboot emoji, unless the message carries both override phrases |
| `Slack.SplitMessage` | src/notifyslack.py:478-497 | the splitting loop returns `Chunks(text)`: `[text]` within the limit, else the stripped renderings of the greedy groups |
| `Slack.Pack` | src/notifyslack.py:486-495 | the greedy groups of lines; their meaning is stated by `PackKeepsLines`, `PackFits`, `PackGreedy`, `PackExtend` and `PackClose` |
| `Slack.Chunks` | src/notifyslack.py:478-497 | what `_split_message` returns; its meaning is stated by `ChunksFit` and `ChunksKeepLines` |
| `Slack.Render` | src/notifyslack.py:488 | the chunk under construction is empty iff it holds no line |
| `Slack.StripAll` | src/notifyslack.py:491-495 | chunk `k` is group `k` rendered and stripped |
| `Slack.PackExtend` | src/notifyslack.py:487-488 | a line that fits joins the current group |
| `Slack.PackClose` | src/notifyslack.py:489-492 | a line that does not fit closes the group and opens the next one |
| `Slack.CloseStep` | src/notifyslack.py:489-492 | closing a group adds its chunk, only if it has a line |
| `Slack.StripAllFlush` | src/notifyslack.py:494-495 | the last group adds its chunk only when it holds a line |
| `Slack.PackKeepsLines` | src/notifyslack.py:486-495 | the groups hold exactly the lines, in order, and none is empty |
| `Slack.PackFits` | src/notifyslack.py:487-492 | every group rendered stays within the limit when every line is shorter than the limit |
| `Slack.ChunksFit` | src/notifyslack.py:478-497 | every chunk is at most `SLACK_MAX_CHARS` long whenever every line is shorter than the limit |
| `Slack.ChunksKeepLines` | src/notifyslack.py:478-497 | a long text's chunks are its groups, each joined by newlines and stripped, and joining the groups gives the text back |
| `Slack.PackGreedy` | src/notifyslack.py:487-492 | no group could have taken the first line of the next one |
| `Slack.PackStartsWith` | src/notifyslack.py:486-492 | the first group starts with the line that opened it |
| `Slack.JoinEach` | src/notifyslack.py:486 | each group's lines joined by newlines |
| `Slack.JoinFlatten` | src/notifyslack.py:486-495 | joining the groups' texts gives the text of all their lines |
| `Slack.RenderJoin` | src/notifyslack.py:488 | a rendered group is its lines joined by newlines, plus one newline |
| `Slack.StripNewline` | src/notifyslack.py:491 | the trailing newline is gone after `strip()` |
| `Slack.Parts` | src/notifyslack.py:465-466 | part `i` is `*Part i+1/n*` followed by chunk `i` |
| `Slack.Decimal` | src/notifyslack.py:466 | `str(n)` in the part header; its meaning is stated by `DecimalValue` |
| `Slack.DecimalValue` | src/notifyslack.py:466 | `str(n)` is non-empty decimal digits, with no leading zero except for 0, and reads back as `n` |
| `Slack.PartText` | src/notifyslack.py:466 | `f"*Part {i+1}/{len(chunks)}*\n{chunk}"`; `Parts` states that part `i` of `n` is built from it |
| `Slack.PostParts` | src/notifyslack.py:465-474 | the posts and kept timestamps of the part loop; their meaning is stated by `PostPartsShape`, `PostPartsPayloads` and `PostPartsStamps` |
| `Slack.ThreadOf` | src/notifyslack.py:451-452 | `thread_ts` is sent iff it is truthy |
| `Slack.Truthy` | src/notifyslack.py:451 | the `if thread_ts:` test; `ThreadOf` states that a timestamp is sent iff it passes |
| `Slack.Answer` | src/notifyslack.py:515-541 | each post uses up one scripted answer |
| `Slack.DropDrop` | src/notifyslack.py:515-541 | using up answers in two steps is using them up at once |
| `Slack.PostPartsStep` | src/notifyslack.py:465-469 | one post of a run, and the thread it leaves for the next |
| `Slack.PostPartsShape` | src/notifyslack.py:465-469 | a run posts one message per part and uses up one answer per post |
| `Slack.PostPartsPayloads` | src/notifyslack.py:465-469 | the posts are the parts, in order, as plain texts, the first into the thread the run starts in |
| `Slack.PostPartsStamps` | src/notifyslack.py:467-469 | every timestamp kept is a truthy answer of the API |
| `Slack.LaterAppend` | src/notifyslack.py:465-469 | one more post moves from the rest of a run to its past |
| `Slack.SlackClient.constructor` | src/notifyslack.py:428-436 | a new client has posted nothing and holds the given script |
| `Slack.SlackClient.Post` | src/notifyslack.py:515-541 | the message is recorded and the next scripted answer returned |
| `Slack.SlackClient.SendBlocks` | src/notifyslack.py:438-454 | one post, into the thread only when `thread_ts` is truthy |
| `Slack.SlackClient.PostAll` | src/notifyslack.py:462-469 | the part loop posts what `PostParts` describes and keeps its timestamps |
| `Slack.SlackClient.SendSimpleMessage` | src/notifyslack.py:456-476 | a short text is one post; a long one is the parts of `Chunks(text)` posted in turn, answering the first kept timestamp or None |
| `UpdateNotifier.PySlice` | src/notifyslack.py:647 | `lines[start:end + 1]`, with Python's clamping and negative `stop` |
| `UpdateNotifier.Joined` | src/notifyslack.py:647 | `''.join(lines[start:end + 1])`, also at line 686; its meaning is stated by `JoinedEmpty` and `JoinedBlank` |
| `UpdateNotifier.JoinedEmpty` | src/notifyslack.py:647 | the joined range is empty iff every line in it is empty |
| `UpdateNotifier.JoinedBlank` | src/notifyslack.py:686-687 | the joined range is blank iff every line in it is blank |
| `UpdateNotifier.NoteFits` | src/notifyslack.py:700-704 | the no-logs note goes out as a single post |
| `UpdateNotifier.LogPlan` | src/notifyslack.py:682-705 | what `_send_log_content` posts; its meaning is stated by `LogDecision` and `LogDecisionLines` |
| `UpdateNotifier.ThreadPlan` | src/notifyslack.py:664-680 | what `_send_thread_messages` posts; its meaning is stated by `ThreadPlanShape` |
| `UpdateNotifier.NotificationPlan` | src/notifyslack.py:651-662 | what `_send_notifications` posts; its meaning is stated by `NotificationShape` |
| `UpdateNotifier.Plan` | src/notifyslack.py:558-587 | what `process_and_notify` posts; its meaning is stated by `PlanShape`, `SilentExactly` and `MainMessageArguments` |
| `UpdateNotifier.ReportPlan` | src/notifyslack.py:569-584 | what a readable report makes the run post; its meaning is stated by `SubjectRequired` and `PlanShape` |
| `UpdateNotifier.ContentPlan` | src/notifyslack.py:574-584 | what the run posts once the subject is known; its meaning is stated by `ContentPlanOutcome` and `ContentPlanShape` |
| `UpdateNotifier.LogDecision` | src/notifyslack.py:682-705 | exactly one thread message: the joined log when both bounds exist in order, the note otherwise |
| `UpdateNotifier.LogNotBlank` | src/notifyslack.py:686-687 | a range that starts at the log header is never blank |
| `UpdateNotifier.LogDecisionLines` | src/notifyslack.py:177-194 | the log is sent iff the first header is no later than one before the last `Log ended:`; the note iff it is later |
| `UpdateNotifier.MissingLogMarkerGetsNote` | src/notifyslack.py:684-705 | a report missing either log marker gets the note |
| `UpdateNotifier.SubjectRequired` | src/notifyslack.py:570-572 | no `Subject:` line, or a last one that strips to empty, makes the run one error report |
| `UpdateNotifier.NoTruthySubject` | src/notifyslack.py:630-636 | those reports have no truthy subject |
| `UpdateNotifier.ContentPlanOutcome` | src/notifyslack.py:574-581 | a missing bound gives the content error, an empty join silence, and anything else the notifications |
| `UpdateNotifier.NotificationShape` | src/notifyslack.py:651-662 | the main message goes first, outside any thread; the thread follows only on a truthy answer |
| `UpdateNotifier.ContentStartRequired` | src/notifyslack.py:639-645 | with a subject but no start line, the run is the content error, even when an end marker exists |
| `UpdateNotifier.InvertedSpan` | src/notifyslack.py:145-161 | when the last end marker is at or before the last start line, the span is `(start, end - 1)` with `end < start`, and the join is empty |
| `UpdateNotifier.InvertedSpanWith` | src/notifyslack.py:145-161 | the same for any pattern lists |
| `UpdateNotifier.InvertedRangeIsSilent` | src/notifyslack.py:574-578 | such a report with a truthy subject posts nothing at all, not even an error |
| `UpdateNotifier.FallbackContentIsSent` | src/notifyslack.py:163-168 | with a subject, a start line and no end marker, the main message always goes out |
| `UpdateNotifier.SilentExactly` | src/notifyslack.py:558-587 | a run posts nothing iff the file was read, the subject is truthy, both bounds exist and every line of the range is empty |
| `UpdateNotifier.PlanShape` | src/notifyslack.py:558-705 | an error report is posted alone; otherwise the main message comes first, outside any thread; the thread is used only on a truthy answer, and then holds the details and one more message |
| `UpdateNotifier.ContentPlanShape` | src/notifyslack.py:574-581 | the same once the subject is known |
| `UpdateNotifier.ThreadPlanShape` | src/notifyslack.py:664-705 | the thread holds the details and then the log or the note, all in the thread |
| `UpdateNotifier.MainMessageArguments` | src/notifyslack.py:570-581 | the main message is built from the last subject and the joined content range |
| `Scenarios.ReportSubjectLine` | src/notifyslack.py:116-124 | the only `Subject:` line of the six-line report is line 0 |
| `Scenarios.TrimLeftTest` | src/notifyslack.py:120 | `lstrip` drops the leading space of `" Test\n"` |
| `Scenarios.TrimRightTest` | src/notifyslack.py:120 | `rstrip` drops the trailing newline of `"Test\n"` |
| `Scenarios.StripTest` | src/notifyslack.py:120 | `" Test\n".strip()` is `Test` |
| `Scenarios.ReportSubject` | src/notifyslack.py:116-124 | `find_last_subject` gives `Test` for the report |
| `Scenarios.ReportStart` | src/notifyslack.py:145-161 | the last start line of the report is line 2, not line 1 |
| `Scenarios.ReportEnd` | src/notifyslack.py:145-161 | the last end line of the report is line 3 |
| `Scenarios.ReportContent` | src/notifyslack.py:126-175 | `find_content_indices` gives (2, 2) for the report |
| `Scenarios.ReportLog` | src/notifyslack.py:177-194 | `find_log_indices` gives (3, 4) for the report |
| `Scenarios.ReportJoinedContent` | src/notifyslack.py:647 | the report's content join is line 2 |
| `Scenarios.ReportJoinedLog` | src/notifyslack.py:686 | the report's log join is lines 3 and 4 |
| `Scenarios.RunWithContent` | src/notifyslack.py:558-587 | a truthy subject and a non-empty content join give the main message, then the thread |
| `Scenarios.ThreadWithLog` | src/notifyslack.py:664-705 | a log range in order gives the details, then that log, in the thread |
| `Scenarios.ReportRun` | src/notifyslack.py:558-705 | for the report and a truthy answer, the run posts exactly the main message (`Test`, line 2), the details and the log of lines 3-4 in its thread |
| `Scenarios.OpensDifferently` | src/notifyslack.py:149-158 | a line matches no pattern that opens with another character |
| `Scenarios.DiffersAt` | src/notifyslack.py:119 | a pattern is not a prefix of a line it differs from at some index |
| `UpdateNotifier.UpdateNotifier.constructor` | src/notifyslack.py:548-556 | the notifier posts through the client it is given |
| `UpdateNotifier.UpdateNotifier.SendErrorMessage` | src/notifyslack.py:589-619 | one error report, outside any thread |
| `UpdateNotifier.UpdateNotifier.ExtractLogBlocksAndValidateContent` | src/notifyslack.py:621-628 | an unreadable file is reported with its name; lines that were read post nothing |
| `UpdateNotifier.UpdateNotifier.ExtractSubject` | src/notifyslack.py:630-637 | a truthy subject is passed on and nothing is posted; otherwise the no-subject error |
| `UpdateNotifier.UpdateNotifier.ExtractMainContent` | src/notifyslack.py:639-649 | a missing bound posts the content error; otherwise the joined range is returned and nothing is posted |
| `UpdateNotifier.UpdateNotifier.SendLogContent` | src/notifyslack.py:682-705 | posts exactly `LogPlan(lines, ts)` |
| `UpdateNotifier.UpdateNotifier.SendThreadMessages` | src/notifyslack.py:664-680 | posts exactly `ThreadPlan(content, lines, ts)` |
| `UpdateNotifier.UpdateNotifier.SendNotifications` | src/notifyslack.py:651-662 | posts exactly `NotificationPlan` for the answer to the main message |
| `UpdateNotifier.UpdateNotifier.ProcessAndNotify` | src/notifyslack.py:558-587 | posts exactly `Plan(inputFile, input, answer to the first post)`, and uses one answer per post |
| `Text.Strip` | src/notifyslack.py:166 | `s.strip()` is falsy exactly when `s` is all whitespace |
| `Text.Lower` | src/notifyslack.py:216 | case folding maps each character, keeping the length |
| `Text.Contains` | src/notifyslack.py:217 | `p in t` iff `p` occurs at some index of `t` |
| `Text.Concat` | src/notifyslack.py:647 | `''.join`; its meaning is stated by `ConcatEmpty` and `ConcatAllSpace` |
| `Text.JoinWith` | src/notifyslack.py:330 | `sep.join`; its meaning is stated by `SplitLinesJoin`, `JoinSplitLines` and `MentionsSnoc` |
| `Text.ConcatEmpty` | src/notifyslack.py:647 | `''.join(parts)` is empty iff every part is |
| `Text.ConcatAllSpace` | src/notifyslack.py:686-687 | `''.join(parts)` is blank iff every part is |
| `Text.SplitLines` | src/notifyslack.py:486 | `split('\n')` gives at least one piece, none holding a newline |
| `Text.SplitLinesJoin` | src/notifyslack.py:486 | joining the pieces with newlines restores the text |
| `Text.JoinSplitLines` | src/notifyslack.py:486 | splitting a newline-join of newline-free pieces restores the pieces |
| `Text.TrimCommute` | src/notifyslack.py:120 | `lstrip` and `rstrip` commute |
| `Text.LowerIdempotent` | src/notifyslack.py:216 | case folding twice is case folding once |

## Left out

- Reading the report (`process_input`, `extract_lines`), the temporary file and its cleanup, and all logging. The lines read are a parameter, and None stands for a file that could not be read.
- The HTTP transport (`_send_request`). The Slack API's answers are a script held by the client: the next `ts` for each post, or None once the script runs out. Timeouts and HTTP errors behave like a None answer.
- The Slack block dictionaries. A payload is the arguments its blocks are built from (`Payload`). The decisions shown in the main message's blocks (status line, reboot emoji and label, `*Notify:*` text) are in `MainCard`. Constant texts such as headers and the HOSTNAME context line are not modelled.
- The `username`/BOT_USERNAME field of every post, and the configuration it comes from (`src/config.py`). Neither changes which messages are posted, in what order, or into which thread.
- `MENTION_IDS`. This per-status table is filled in at build time, so `MainCard` takes it as a parameter.
- `build.py` and `scripts/cleanup.py`. They copy files, call git and delete files.
- `Text.Lower`: folds ASCII letters only. Python's `casefold` also folds non-ASCII letters (for example `ß` to `ss`), which changes lengths.
- `Text.Strip`: this is Python's whitespace set as `str.strip()` uses it. Unicode property tables beyond those code points are not modelled.
- The unused `failed_result` in `_send_error_message`. No code reads it; the error card is built by classifying the made-up subject and content (`ErrorCardFailed`).
- The whitespace-only log case: the blank-log check in `SendLogContent` is kept as written. `LogDecision` proves that it never fails, so "a whitespace-only log range sends nothing" cannot happen.
