/**
  The notifier's `SlackClient`: the line-greedy splitting of long texts
  (`_split_message`), the part-by-part posting of a long simple message
  (`send_simple_message`), and a transport that records what is posted and
  answers each post from a script of replies, standing in for the Slack API.
 */
module Slack {
  import opened Wrappers
  import opened Text
  import opened MessageFormatter

  /** Slack's limit on the characters of one message. */
  const SlackMaxChars := 12000

  /** The text `current_chunk` holds once the lines of `group` are added: each line and a newline. */
  function Render(group: seq<string>): (r: string)
    ensures r == "" <==> group == []
    decreases |group|
  {
    if group == [] then "" else Render(group[..|group| - 1]) + group[|group| - 1] + "\n"
  }

  /** `if current_chunk: chunks.append(...)`: a group is kept only when it holds a line. */
  function Flush(group: seq<string>): seq<seq<string>> {
    if group == [] then [] else [group]
  }

  /**
    The groups of lines `_split_message` makes from `rest` when `group` holds
    the lines of the chunk under construction: a line joins the current group
    while the rendered group, the line and its newline stay within the limit;
    otherwise the group is closed and the line opens the next one.
   */
  function Pack(group: seq<string>, rest: seq<string>): seq<seq<string>>
    decreases |rest|
  {
    if rest == [] then Flush(group)
    else if |Render(group)| + |rest[0]| + 1 <= SlackMaxChars then Pack(group + [rest[0]], rest[1..])
    else Flush(group) + Pack([rest[0]], rest[1..])
  }

  /** The chunk each group becomes: its rendering, stripped. */
  function StripAll(groups: seq<seq<string>>): (r: seq<string>)
    ensures |r| == |groups|
    ensures forall k :: 0 <= k < |groups| ==> r[k] == Strip(Render(groups[k]))
  {
    seq(|groups|, k requires 0 <= k < |groups| => Strip(Render(groups[k])))
  }

  /** What `_split_message(text)` returns. */
  function Chunks(text: string): seq<string> {
    if |text| <= SlackMaxChars then [text] else StripAll(Pack([], SplitLines(text)))
  }

  /** Taking the next line into the group under construction. */
  lemma PackExtend(group: seq<string>, rest: seq<string>)
    requires rest != [] && |Render(group)| + |rest[0]| + 1 <= SlackMaxChars
    ensures Pack(group, rest) == Pack(group + [rest[0]], rest[1..])
    ensures Render(group + [rest[0]]) == Render(group) + rest[0] + "\n"
  {
    assert (group + [rest[0]])[..|group|] == group;
  }

  /** Closing the group under construction and opening the next one with the next line. */
  lemma PackClose(group: seq<string>, rest: seq<string>)
    requires rest != [] && |Render(group)| + |rest[0]| + 1 > SlackMaxChars
    ensures Pack(group, rest) == Flush(group) + Pack([rest[0]], rest[1..])
    ensures Render([rest[0]]) == rest[0] + "\n"
  {
    assert [rest[0]][..0] == [];
  }

  /** Closing a group adds its chunk, if it has a line. */
  lemma StripAllFlush(done: seq<seq<string>>, group: seq<string>)
    ensures StripAll(done + Flush(group)) == StripAll(done) + (if group == [] then [] else [Strip(Render(group))])
  {
    if group == [] {
      assert done + Flush(group) == done;
    } else {
      var all := done + [group];
      var want := StripAll(done) + [Strip(Render(group))];
      assert Flush(group) == [group];
      assert |StripAll(all)| == |want|;
      forall k | 0 <= k < |all|
        ensures StripAll(all)[k] == want[k]
      {
        if k < |done| {
          assert all[k] == done[k];
        }
      }
    }
  }

  /** One step of `_split_message` that closes the group under construction. */
  lemma CloseStep(done: seq<seq<string>>, group: seq<string>, rest: seq<string>)
    requires rest != [] && |Render(group)| + |rest[0]| + 1 > SlackMaxChars
    ensures StripAll(done + Flush(group)) == StripAll(done) + (if group == [] then [] else [Strip(Render(group))])
    ensures done + Pack(group, rest) == (done + Flush(group)) + Pack([rest[0]], rest[1..])
    ensures Render([rest[0]]) == rest[0] + "\n"
  {
    PackClose(group, rest);
    StripAllFlush(done, group);
  }

  /** `SlackClient._split_message`. */
  method SplitMessage(text: string) returns (chunks: seq<string>)
    ensures chunks == Chunks(text)
  {
    if |text| <= SlackMaxChars {
      return [text];
    }
    chunks := [];
    var current := "";
    ghost var done: seq<seq<string>> := [];  // the groups already closed
    ghost var group: seq<string> := [];      // the lines of `current`
    var lines := SplitLines(text);
    for i := 0 to |lines|
      invariant current == Render(group)
      invariant chunks == StripAll(done)
      invariant done + Pack(group, lines[i..]) == Pack([], lines)
    {
      var line := lines[i];
      assert lines[i..][1..] == lines[i + 1..];
      if |current| + |line| + 1 <= SlackMaxChars {
        PackExtend(group, lines[i..]);
        current := current + line + "\n";
        group := group + [line];
      } else {
        CloseStep(done, group, lines[i..]);
        if current != "" {
          chunks := chunks + [Strip(current)];
        }
        done := done + Flush(group);
        current := line + "\n";
        group := [line];
      }
    }
    assert lines[|lines|..] == [];
    StripAllFlush(done, group);
    if current != "" {
      chunks := chunks + [Strip(current)];
    }
  }

  /** The lines of `groups`, in order. */
  function Flatten(groups: seq<seq<string>>): seq<string>
    decreases |groups|
  {
    if groups == [] then [] else groups[0] + Flatten(groups[1..])
  }

  lemma {:induction false} FlattenAppend(a: seq<seq<string>>, b: seq<seq<string>>)
    ensures Flatten(a + b) == Flatten(a) + Flatten(b)
    decreases |a|
  {
    if a != [] {
      assert (a + b)[1..] == a[1..] + b;
      FlattenAppend(a[1..], b);
    } else {
      assert a + b == b;
    }
  }

  /** Packing neither loses, repeats nor reorders a line, and never makes an empty group. */
  lemma {:induction false} PackKeepsLines(group: seq<string>, rest: seq<string>)
    ensures Flatten(Pack(group, rest)) == group + rest
    ensures forall k :: 0 <= k < |Pack(group, rest)| ==> Pack(group, rest)[k] != []
    decreases |rest|
  {
    if rest == [] {
      assert Flatten(Flush(group)) == group;
    } else if |Render(group)| + |rest[0]| + 1 <= SlackMaxChars {
      PackKeepsLines(group + [rest[0]], rest[1..]);
      assert group + [rest[0]] + rest[1..] == group + rest;
    } else {
      PackKeepsLines([rest[0]], rest[1..]);
      FlattenAppend(Flush(group), Pack([rest[0]], rest[1..]));
      assert Flatten(Flush(group)) == group;
      assert [rest[0]] + rest[1..] == rest;
    }
  }

  /**
    A group, once rendered, stays within the limit when the group being built
    does and every line still to come is shorter than the limit.
   */
  lemma {:induction false} PackFits(group: seq<string>, rest: seq<string>)
    requires |Render(group)| <= SlackMaxChars
    requires forall k :: 0 <= k < |rest| ==> |rest[k]| < SlackMaxChars
    ensures forall k :: 0 <= k < |Pack(group, rest)| ==> |Render(Pack(group, rest)[k])| <= SlackMaxChars
    decreases |rest|
  {
    if rest != [] {
      if |Render(group)| + |rest[0]| + 1 <= SlackMaxChars {
        PackFits(group + [rest[0]], rest[1..]);
      } else {
        PackClose(group, rest);
        PackFits([rest[0]], rest[1..]);
      }
    }
  }

  /**
    Every chunk of `_split_message` is within the limit whenever every line of
    the text is shorter than the limit.
   */
  lemma ChunksFit(text: string)
    requires forall k :: 0 <= k < |SplitLines(text)| ==> |SplitLines(text)[k]| < SlackMaxChars
    ensures forall k :: 0 <= k < |Chunks(text)| ==> |Chunks(text)[k]| <= SlackMaxChars
  {
    if |text| > SlackMaxChars {
      PackFits([], SplitLines(text));
    }
  }

  /** `sep.join` of two non-empty lists of parts. */
  lemma {:induction false} JoinWithAppend(a: seq<string>, b: seq<string>, sep: string)
    requires a != [] && b != []
    ensures JoinWith(a + b, sep) == JoinWith(a, sep) + sep + JoinWith(b, sep)
    decreases |a|
  {
    if |a| > 1 {
      assert (a + b)[1..] == a[1..] + b;
      JoinWithAppend(a[1..], b, sep);
    } else {
      assert (a + b)[1..] == b;
    }
  }

  /** Each group's lines joined by newlines. */
  function JoinEach(groups: seq<seq<string>>): (r: seq<string>)
    ensures |r| == |groups|
    ensures forall k :: 0 <= k < |groups| ==> r[k] == JoinWith(groups[k], "\n")
  {
    seq(|groups|, k requires 0 <= k < |groups| => JoinWith(groups[k], "\n"))
  }

  /** Joining the groups' texts gives the text of all their lines. */
  lemma {:induction false} JoinFlatten(groups: seq<seq<string>>)
    requires forall k :: 0 <= k < |groups| ==> groups[k] != []
    ensures JoinWith(Flatten(groups), "\n") == JoinWith(JoinEach(groups), "\n")
    decreases |groups|
  {
    if |groups| > 1 {
      JoinFlatten(groups[1..]);
      assert JoinEach(groups)[1..] == JoinEach(groups[1..]);
      PackKeepsLinesNonEmpty(groups[1..]);
      JoinWithAppend(groups[0], Flatten(groups[1..]), "\n");
    } else if |groups| == 1 {
      assert Flatten(groups) == groups[0] + Flatten(groups[1..]);
      assert groups[0] + [] == groups[0];
    }
  }

  /** The lines of non-empty groups are non-empty as well. */
  lemma PackKeepsLinesNonEmpty(groups: seq<seq<string>>)
    requires groups != [] && groups[0] != []
    ensures Flatten(groups) != []
  {
  }

  /** A rendered group is its lines joined by newlines, with one more newline. */
  lemma {:induction false} RenderJoin(group: seq<string>)
    requires group != []
    ensures Render(group) == JoinWith(group, "\n") + "\n"
    decreases |group|
  {
    var front := group[..|group| - 1];
    if front != [] {
      RenderJoin(front);
      assert group == front + [group[|group| - 1]];
      JoinWithSnoc(front, group[|group| - 1], "\n");
    }
  }

  /** The trailing newline of a rendered group is gone after `strip()`. */
  lemma StripNewline(x: string)
    ensures Strip(x + "\n") == Strip(x)
  {
    var y := x + "\n";
    assert y[..|y| - 1] == x;
    assert TrimRight(y) == TrimRight(x);
    StripAfterTrimRight(y);
    StripAfterTrimRight(x);
  }

  /**
    Splitting keeps the lines of the text in order: chunk `k` is group `k`'s
    lines joined by newlines and stripped, and the groups' texts joined by
    newlines give back the text.
   */
  lemma ChunksKeepLines(text: string)
    requires |text| > SlackMaxChars
    ensures var groups := Pack([], SplitLines(text));
      |Chunks(text)| == |groups|
      && (forall k :: 0 <= k < |groups| ==> groups[k] != [] && Chunks(text)[k] == Strip(JoinWith(groups[k], "\n")))
      && JoinWith(JoinEach(groups), "\n") == text
  {
    var groups := Pack([], SplitLines(text));
    PackKeepsLines([], SplitLines(text));
    assert [] + SplitLines(text) == SplitLines(text);
    forall k | 0 <= k < |groups|
      ensures Chunks(text)[k] == Strip(JoinWith(groups[k], "\n"))
    {
      RenderJoin(groups[k]);
      StripNewline(JoinWith(groups[k], "\n"));
    }
    JoinFlatten(groups);
    SplitLinesJoin(text);
  }

  /**
    No group could have taken the first line of the next one: the packing is
    greedy.
   */
  lemma {:induction false} PackGreedy(group: seq<string>, rest: seq<string>)
    ensures var gs := Pack(group, rest);
      forall k :: 1 <= k < |gs| ==> gs[k] != [] && |Render(gs[k - 1])| + |gs[k][0]| + 1 > SlackMaxChars
    decreases |rest|
  {
    if rest != [] {
      if |Render(group)| + |rest[0]| + 1 <= SlackMaxChars {
        PackExtend(group, rest);
        PackGreedy(group + [rest[0]], rest[1..]);
      } else {
        var tail := Pack([rest[0]], rest[1..]);
        PackGreedy([rest[0]], rest[1..]);
        PackStartsWith([rest[0]], rest[1..]);
        assert Pack(group, rest) == Flush(group) + tail;
        if group == [] {
          assert Flush(group) + tail == tail;
        } else {
          var gs := [group] + tail;
          assert forall k :: 1 <= k < |gs| ==> gs[k] == tail[k - 1];
        }
      }
    }
  }

  /** Packing with a non-empty group under construction starts with that group's first line. */
  lemma {:induction false} PackStartsWith(group: seq<string>, rest: seq<string>)
    requires group != []
    ensures Pack(group, rest) != [] && Pack(group, rest)[0] != [] && Pack(group, rest)[0][0] == group[0]
    decreases |rest|
  {
    if rest != [] && |Render(group)| + |rest[0]| + 1 <= SlackMaxChars {
      PackStartsWith(group + [rest[0]], rest[1..]);
    }
  }

  /** A payload as posted, with the thread it was posted into. */
  datatype Message = Message(payload: Payload, thread: Option<string>)

  /** `if thread_ts:`: a missing or empty timestamp counts as none. */
  predicate Truthy(ts: Option<string>) {
    ts.Some? && ts.value != ""
  }

  /** The thread a post actually names: the payload carries `thread_ts` only when it is truthy. */
  function ThreadOf(ts: Option<string>): (r: Option<string>)
    ensures r.Some? <==> Truthy(ts)
    ensures r.Some? ==> r == ts
  {
    if Truthy(ts) then ts else None
  }

  /** The answer to one post and the answers left for the posts after it. */
  datatype Reply = Reply(ts: Option<string>, left: seq<Option<string>>)

  /** The next scripted answer; None once the script is used up. */
  function Answer(replies: seq<Option<string>>): (r: Reply)
    ensures r.left == Drop(replies, 1)
  {
    if replies == [] then Reply(None, []) else Reply(replies[0], replies[1..])
  }

  /** The answers left after `n` posts. */
  function Drop(replies: seq<Option<string>>, n: nat): seq<Option<string>> {
    if n >= |replies| then [] else replies[n..]
  }

  lemma DropDrop(replies: seq<Option<string>>, a: nat, b: nat)
    ensures Drop(Drop(replies, a), b) == Drop(replies, a + b)
  {
  }

  /** `str(n)` for a natural number. */
  function Decimal(n: nat): string
    decreases n
  {
    if n < 10 then [('0' as int + n) as char] else Decimal(n / 10) + [('0' as int + n % 10) as char]
  }

  /** The number a string of decimal digits stands for. */
  function DigitsValue(s: string): int
    decreases |s|
  {
    if s == [] then 0 else DigitsValue(s[..|s| - 1]) * 10 + (s[|s| - 1] as int - '0' as int)
  }

  /**
    `str(n)` is a non-empty string of decimal digits, with no leading zero
    except for 0 itself, and it reads back as `n`.
   */
  lemma {:induction false} DecimalValue(n: nat)
    ensures |Decimal(n)| > 0 && DigitsValue(Decimal(n)) == n
    ensures forall k :: 0 <= k < |Decimal(n)| ==> '0' <= Decimal(n)[k] <= '9'
    ensures Decimal(n)[0] == '0' ==> n == 0
    decreases n
  {
    var s := Decimal(n);
    if n < 10 {
      assert s[..0] == [];
    } else {
      DecimalValue(n / 10);
      assert s[..|s| - 1] == Decimal(n / 10);
      assert s[0] == Decimal(n / 10)[0];
    }
  }

  /** `f"*Part {i+1}/{len(chunks)}*\n{chunk}"`. */
  function PartText(i: nat, count: nat, chunk: string): string {
    "*Part " + Decimal(i + 1) + "/" + Decimal(count) + "*\n" + chunk
  }

  /** The part texts of a long message, numbered from 1. */
  function Parts(chunks: seq<string>): (r: seq<string>)
    ensures |r| == |chunks|
    ensures forall i :: 0 <= i < |chunks| ==> r[i] == PartText(i, |chunks|, chunks[i])
  {
    seq(|chunks|, i requires 0 <= i < |chunks| => PartText(i, |chunks|, chunks[i]))
  }

  /** What posting `texts` one after the other does. */
  datatype Run = Run(sent: seq<Message>, stamps: seq<string>, left: seq<Option<string>>)

  /**
    Posting `texts` in turn, starting in `thread`: each accepted post's
    timestamp is kept and becomes the thread of the posts after it.
   */
  function PostParts(texts: seq<string>, thread: Option<string>, replies: seq<Option<string>>): Run
    decreases |texts|
  {
    if texts == [] then Run([], [], replies)
    else
      var reply := Answer(replies);
      var next := if Truthy(reply.ts) then reply.ts else thread;
      var r := PostParts(texts[1..], next, reply.left);
      Run([Message(Plain(texts[0]), ThreadOf(thread))] + r.sent,
        (if Truthy(reply.ts) then [reply.ts.value] else []) + r.stamps, r.left)
  }

  /** The run `rest` after the posts `sent` that kept `stamps`. */
  function Later(sent: seq<Message>, stamps: seq<string>, rest: Run): Run {
    Run(sent + rest.sent, stamps + rest.stamps, rest.left)
  }

  lemma LaterAppend(sent: seq<Message>, m: Message, stamps: seq<string>, kept: seq<string>, rest: Run)
    ensures Later(sent, stamps, Run([m] + rest.sent, kept + rest.stamps, rest.left))
      == Later(sent + [m], stamps + kept, rest)
  {
    assert sent + ([m] + rest.sent) == (sent + [m]) + rest.sent;
    assert stamps + (kept + rest.stamps) == (stamps + kept) + rest.stamps;
  }

  /** One post of a run. */
  lemma PostPartsStep(texts: seq<string>, thread: Option<string>, replies: seq<Option<string>>)
    requires texts != []
    ensures var reply := Answer(replies);
      var next := if Truthy(reply.ts) then reply.ts else thread;
      var r := PostParts(texts[1..], next, reply.left);
      PostParts(texts, thread, replies)
        == Run([Message(Plain(texts[0]), ThreadOf(thread))] + r.sent,
               (if Truthy(reply.ts) then [reply.ts.value] else []) + r.stamps, r.left)
  {
  }

  /** A run posts one message per text and uses up one answer per post. */
  lemma {:induction false} PostPartsShape(texts: seq<string>, thread: Option<string>, replies: seq<Option<string>>)
    ensures var r := PostParts(texts, thread, replies);
      |r.sent| == |texts| && r.left == Drop(replies, |texts|)
    decreases |texts|
  {
    if texts != [] {
      var reply := Answer(replies);
      var next := if Truthy(reply.ts) then reply.ts else thread;
      PostPartsShape(texts[1..], next, reply.left);
      DropDrop(replies, 1, |texts| - 1);
    }
  }

  /**
    The posts of a run are the texts, in order and each as a plain text, the
    first into the thread the run starts in.
   */
  lemma {:induction false} PostPartsPayloads(texts: seq<string>, thread: Option<string>, replies: seq<Option<string>>)
    ensures var r := PostParts(texts, thread, replies);
      && (forall k :: 0 <= k < |texts| && k < |r.sent| ==> r.sent[k].payload == Plain(texts[k]))
      && (texts != [] ==> r.sent != [] && r.sent[0].thread == ThreadOf(thread))
    decreases |texts|
  {
    if texts != [] {
      var reply := Answer(replies);
      var next := if Truthy(reply.ts) then reply.ts else thread;
      var rest := PostParts(texts[1..], next, reply.left);
      PostPartsPayloads(texts[1..], next, reply.left);
      var r := PostParts(texts, thread, replies);
      assert r.sent == [Message(Plain(texts[0]), ThreadOf(thread))] + rest.sent;
      assert forall k :: 1 <= k < |r.sent| ==> r.sent[k] == rest.sent[k - 1];
      assert forall k :: 1 <= k < |texts| ==> texts[k] == texts[1..][k - 1];
    }
  }

  /** Every stamp a run keeps is a truthy answer of the script. */
  lemma {:induction false} PostPartsStamps(texts: seq<string>, thread: Option<string>, replies: seq<Option<string>>)
    ensures forall s :: s in PostParts(texts, thread, replies).stamps ==> s != "" && Some(s) in replies
    decreases |texts|
  {
    if texts != [] {
      var reply := Answer(replies);
      var next := if Truthy(reply.ts) then reply.ts else thread;
      PostPartsStamps(texts[1..], next, reply.left);
      assert forall x :: x in reply.left ==> x in replies;
    }
  }

  class SlackClient {
    /** Every message posted so far, oldest first. */
    var sent: seq<Message>
    /** What the Slack API answers to the coming posts, in order: the `ts` of an accepted post, or None. */
    var replies: seq<Option<string>>

    constructor (replies: seq<Option<string>>)
      ensures sent == [] && this.replies == replies
    {
      sent := [];
      this.replies := replies;
    }

    /** `_send_request`: post one message and read the answer. */
    method Post(m: Message) returns (ts: Option<string>)
      modifies this
      ensures sent == old(sent) + [m]
      ensures Reply(ts, replies) == Answer(old(replies))
    {
      sent := sent + [m];
      var reply := Answer(replies);
      ts, replies := reply.ts, reply.left;
    }

    /** `send_blocks`. */
    method SendBlocks(payload: Payload, thread: Option<string>) returns (ts: Option<string>)
      modifies this
      ensures sent == old(sent) + [Message(payload, ThreadOf(thread))]
      ensures Reply(ts, replies) == Answer(old(replies))
    {
      ts := Post(Message(payload, ThreadOf(thread)));
    }

    /**
      The loop of `send_simple_message` over the parts of a long message:
      post each part and, once a post is accepted, keep its timestamp and post
      the parts after it into that thread.
     */
    method PostAll(texts: seq<string>, thread: Option<string>) returns (stamps: seq<string>)
      modifies this
      ensures var r := PostParts(texts, thread, old(replies));
        sent == old(sent) + r.sent && replies == r.left && stamps == r.stamps
    {
      ghost var total := PostParts(texts, thread, replies);
      ghost var posted: seq<Message> := [];
      stamps := [];
      var t := thread;
      for i := 0 to |texts|
        invariant sent == old(sent) + posted
        invariant total == Later(posted, stamps, PostParts(texts[i..], t, replies))
      {
        PostPartsStep(texts[i..], t, replies);
        assert texts[i..][1..] == texts[i + 1..];
        var m := Message(Plain(texts[i]), ThreadOf(t));
        var r := Post(m);
        posted := posted + [m];
        LaterAppend(posted[..|posted| - 1], m, stamps, if Truthy(r) then [r.value] else [],
          PostParts(texts[i + 1..], if Truthy(r) then r else t, replies));
        if Truthy(r) {
          stamps := stamps + [r.value];
          t := r;
        }
      }
      assert texts[|texts|..] == [];
    }

    /**
      `send_simple_message`: a text within the limit is posted as it is; a
      longer one is split and its parts are posted in turn, each into the
      thread of the last accepted part, and the first accepted part's
      timestamp is the answer.
     */
    method SendSimpleMessage(text: string, thread: Option<string>) returns (ts: Option<string>)
      modifies this
      ensures |text| <= SlackMaxChars ==>
        sent == old(sent) + [Message(Plain(text), ThreadOf(thread))] && Reply(ts, replies) == Answer(old(replies))
      ensures |text| > SlackMaxChars ==>
        var r := PostParts(Parts(Chunks(text)), thread, old(replies));
        sent == old(sent) + r.sent && replies == r.left && ts == (if r.stamps == [] then None else Some(r.stamps[0]))
    {
      if |text| <= SlackMaxChars {
        ts := Post(Message(Plain(text), ThreadOf(thread)));
        return;
      }
      var chunks := SplitMessage(text);
      var stamps := PostAll(Parts(chunks), thread);
      ts := if stamps == [] then None else Some(stamps[0]);
    }
  }
}
