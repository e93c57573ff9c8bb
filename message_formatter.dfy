/**
  The decisions `SlackMessageFormatter` makes while building its payloads:
  the status line, the reboot emoji and label, and the `*Notify:*` mention
  text. The block dictionaries themselves are reduced to the values they
  carry (`Payload`).
 */
module MessageFormatter {
  import opened Wrappers
  import opened Text
  import opened ResultDeterminer

  /** `f"<{mention_id}>"`: the Slack markup that mentions a user or group. */
  function Wrap(id: string): string {
    "<" + id + ">"
  }

  /** Every id in turn, wrapped. */
  function WrapAll(ids: seq<string>): (r: seq<string>)
    ensures |r| == |ids|
    ensures forall k :: 0 <= k < |ids| ==> r[k] == Wrap(ids[k])
  {
    seq(|ids|, k requires 0 <= k < |ids| => Wrap(ids[k]))
  }

  /** The mention text: the wrapped ids joined by `", "`. */
  function Mentions(ids: seq<string>): string {
    JoinWith(WrapAll(ids), ", ")
  }

  /**
    The mention-text assembly of `create_main_message_blocks`: a loop that
    collects the wrapped ids, then `", ".join(...)`; no ids give `""`.
   */
  method MentionText(ids: seq<string>) returns (text: string)
    ensures text == Mentions(ids)
  {
    if |ids| > 0 {
      var mentions: seq<string> := [];
      for k := 0 to |ids|
        invariant mentions == WrapAll(ids[..k])
      {
        mentions := mentions + [Wrap(ids[k])];
      }
      assert ids[..|ids|] == ids;
      text := JoinWith(mentions, ", ");
    } else {
      text := "";
    }
  }

  /** The mention text is empty exactly when there is no id to mention. */
  lemma MentionsEmpty(ids: seq<string>)
    ensures Mentions(ids) == "" <==> ids == []
  {
    if |ids| > 1 {
      assert |Mentions(ids)| >= |Wrap(ids[0])|;
    } else if |ids| == 1 {
      assert Mentions(ids) == Wrap(ids[0]);
    }
  }

  /** One id is mentioned as `<id>` alone. */
  lemma MentionsOne(id: string)
    ensures Mentions([id]) == "<" + id + ">"
  {
  }

  /** Mentioning one more id appends `", <id>"` to a non-empty mention text. */
  lemma MentionsSnoc(ids: seq<string>, id: string)
    requires ids != []
    ensures Mentions(ids + [id]) == Mentions(ids) + ", " + Wrap(id)
  {
    assert WrapAll(ids + [id]) == WrapAll(ids) + [Wrap(id)];
    JoinWithSnoc(WrapAll(ids), Wrap(id), ", ");
  }

  /** A non-empty mention text opens with `<` and closes with `>`. */
  lemma {:induction false} MentionsBracketed(ids: seq<string>)
    requires ids != []
    ensures |Mentions(ids)| >= 2
    ensures Mentions(ids)[0] == '<' && Mentions(ids)[|Mentions(ids)| - 1] == '>'
    decreases |ids|
  {
    if |ids| == 1 {
      assert Mentions(ids) == Wrap(ids[0]);
    } else {
      var front := ids[..|ids| - 1];
      assert ids == front + [ids[|ids| - 1]];
      MentionsBracketed(front);
      MentionsSnoc(front, ids[|ids| - 1]);
    }
  }

  const RebootEmojiRequired := ":arrows_counterclockwise:"
  const FailedRebootEmoji := ":warning:"

  /** The emoji of the `*Reboot:*` field. */
  function RebootEmoji(status: UpdateStatus, reboot: bool): (r: string)
    ensures status == Failed ==> r == FailedRebootEmoji
    ensures status != Failed ==> (r == RebootEmojiRequired <==> reboot) && (r == "" <==> !reboot)
  {
    if status == Failed then FailedRebootEmoji
    else if reboot then RebootEmojiRequired
    else ""
  }

  /** The label of the `*Reboot:*` field. */
  function RebootLabel(reboot: bool): string {
    if reboot then "Required" else "Not Required"
  }

  /** What the main message's blocks show. */
  datatype Card = Card(
    status: UpdateStatus,
    statusEmoji: string,
    statusText: string,
    reboot: bool,
    rebootEmoji: string,
    rebootLabel: string,
    notify: Option<string>)  // the `*Notify:*` section, present only with a non-empty mention text

  /** `create_main_message_blocks(subject, content)`, with the mention ids per status given. */
  function MainCard(subject: string, content: string, mentionIds: UpdateStatus -> seq<string>): (c: Card)
    ensures c.status == GetStatus(subject, content).status
    ensures c.statusEmoji == StatusMapping(c.status).emoji && c.statusText == StatusMapping(c.status).text
    ensures c.reboot == IsRebootRequired(subject, content)
    ensures c.rebootEmoji == RebootEmoji(c.status, c.reboot) && c.rebootLabel == RebootLabel(c.reboot)
    ensures c.notify.Some? <==> mentionIds(c.status) != []
    ensures c.notify.Some? ==> c.notify.value == Mentions(mentionIds(c.status))
  {
    var result := GetStatus(subject, content);
    var reboot := IsRebootRequired(subject, content);
    var mentions := Mentions(mentionIds(result.status));
    MentionsEmpty(mentionIds(result.status));
    Card(result.status, result.emoji, result.text, reboot, RebootEmoji(result.status, reboot),
      RebootLabel(reboot), if mentions != "" then Some(mentions) else None)
  }

  /**
    The Slack payloads the notifier sends, by the arguments their blocks are
    made from: the blocks of `Main(subject, content)` show
    `MainCard(subject, content, ...)`, and those of `ErrorReport(message)`
    show `ErrorCard(message, ...)` followed by a `*Reason:*` section.
   */
  datatype Payload =
    | Main(subject: string, content: string) // create_main_message_blocks
    | ErrorReport(message: string)           // _send_error_message
    | Details(content: string)               // create_update_details_blocks
    | InstallLog(log: string)                // create_log_blocks
    | Plain(text: string)                    // a simple text message

  const ErrorSubjectPrefix := "ERROR: "
  const ErrorContentPrefix := "An error occurred during the update process: "

  /** The card of `_send_error_message(message)`: the main card of a made-up error report. */
  function ErrorCard(message: string, mentionIds: UpdateStatus -> seq<string>): Card {
    MainCard(ErrorSubjectPrefix + message, ErrorContentPrefix + message, mentionIds)
  }

  /**
    The made-up subject always contains "error", so an error report is
    classified FAILED, with the FAILED reboot emoji, unless the message itself
    carries both override phrases.
   */
  lemma ErrorCardFailed(message: string, mentionIds: UpdateStatus -> seq<string>)
    requires !Override(ErrorSubjectPrefix + message, ErrorContentPrefix + message)
    ensures ErrorCard(message, mentionIds).status == Failed
    ensures ErrorCard(message, mentionIds).rebootEmoji == FailedRebootEmoji
  {
    var subject := ErrorSubjectPrefix + message;
    LowerAppend(ErrorSubjectPrefix, message);
    assert Lower(ErrorSubjectPrefix) == "error: ";
    assert OccursAt(Lower(subject), "error", 0);
    assert "error" in StatusMapping(Failed).patterns;
    assert Occurs(Failed, subject);
    PriorityOrder(subject, ErrorContentPrefix + message);
  }
}
