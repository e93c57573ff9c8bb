/**
  The notifier's status classification: `UpdateResult.matches` and
  `matches_all`, the `STATUS_MAPPINGS` table, `ResultDeterminer.get_status`
  (an all-of override checked before a fixed priority list, with `INFO` as
  the fallback) and `ResultDeterminer.is_reboot_required`.

  All matching is case-insensitive substring search: both the text and the
  pattern are case-folded (`Lower`) and the pattern is looked for with
  `Contains`.
 */
module ResultDeterminer {
  import opened Wrappers
  import opened Text

  datatype UpdateStatus = NoUpdates | NoUpdatesRebootPending | Success | Failed | Warning | Info

  /**
    One entry of `STATUS_MAPPINGS`. The mention ids the source also keeps in
    each entry are a build-time table; the formatter takes them as a parameter.
   */
  datatype UpdateResult = UpdateResult(status: UpdateStatus, emoji: string, text: string, patterns: seq<string>)

  const NoPackagesUpgradable := "no packages found that can be upgraded"
  const RebootRequiredText := "reboot required"

  /** `STATUS_MAPPINGS[s]`. */
  function StatusMapping(s: UpdateStatus): (r: UpdateResult)
    ensures r.status == s
  {
    match s
    case NoUpdates =>
      UpdateResult(NoUpdates, ":information_source:", "No Updates Available",
        ["no packages found", NoPackagesUpgradable])
    case NoUpdatesRebootPending =>
      UpdateResult(NoUpdatesRebootPending, ":warning:", "No Updates/Reboot Pending",
        [NoPackagesUpgradable, RebootRequiredText])
    case Success =>
      UpdateResult(Success, ":white_check_mark:", "Success", ["success", "all upgrades installed"])
    case Failed =>
      UpdateResult(Failed, ":red_circle:", "Failed", ["failed", "error"])
    case Warning =>
      UpdateResult(Warning, ":warning:", "Warning", ["warning"])
    case Info =>
      UpdateResult(Info, ":information_source:", "Info", [])
  }

  /** Every pattern of the table is written in case-folded form already. */
  lemma PatternsFolded(s: UpdateStatus)
    ensures forall p :: p in StatusMapping(s).patterns ==> Lower(p) == p
  {
    match s
    case NoUpdates =>
      LongPatternsFolded();
    case NoUpdatesRebootPending =>
      LongPatternsFolded();
    case Success =>
      LongPatternsFolded();
      FoldedLower("success");
    case Failed =>
      FoldedLower("failed");
      FoldedLower("error");
    case Warning =>
      FoldedLower("warning");
    case Info =>
  }

  lemma LongPatternsFolded()
    ensures Lower("no packages found") == "no packages found"
    ensures Lower(NoPackagesUpgradable) == NoPackagesUpgradable
    ensures Lower(RebootRequiredText) == RebootRequiredText
    ensures Lower("all upgrades installed") == "all upgrades installed"
  {
    FoldedLower("no packages found");
    NoPackagesFolded();
    FoldedLower(RebootRequiredText);
    FoldedLower("all upgrades installed");
  }

  lemma NoPackagesFolded()
    ensures Lower(NoPackagesUpgradable) == NoPackagesUpgradable
  {
    assert IsFolded(NoPackagesUpgradable);
    FoldedLower(NoPackagesUpgradable);
  }

  /** `any(p.casefold() in t for p in pats)`, for `t` already case-folded. */
  predicate AnyOccurs(pats: seq<string>, t: string)
    decreases |pats|
  {
    |pats| > 0 && (Contains(t, Lower(pats[0])) || AnyOccurs(pats[1..], t))
  }

  /** `all(p.casefold() in t for p in pats)`, for `t` already case-folded. */
  predicate AllOccur(pats: seq<string>, t: string)
    decreases |pats|
  {
    |pats| == 0 || (Contains(t, Lower(pats[0])) && AllOccur(pats[1..], t))
  }

  /** `UpdateResult.matches`. */
  predicate Matches(r: UpdateResult, text: string) {
    AnyOccurs(r.patterns, Lower(text))
  }

  /** `UpdateResult.matches_all`. */
  predicate MatchesAll(r: UpdateResult, text: string) {
    AllOccur(r.patterns, Lower(text))
  }

  /** `matches` holds exactly when some case-folded pattern occurs in the case-folded text. */
  lemma {:induction false} AnyOccursIff(pats: seq<string>, t: string)
    ensures AnyOccurs(pats, t) <==> exists p :: p in pats && Contains(t, Lower(p))
    decreases |pats|
  {
    if |pats| > 0 {
      AnyOccursIff(pats[1..], t);
      assert forall p :: p in pats[1..] ==> p in pats;
      if Contains(t, Lower(pats[0])) {
        assert pats[0] in pats;
      } else if exists p :: p in pats && Contains(t, Lower(p)) {
        var p :| p in pats && Contains(t, Lower(p));
        assert p in pats[1..];
      }
    }
  }

  /** `matches_all` holds exactly when every case-folded pattern occurs in the case-folded text. */
  lemma {:induction false} AllOccurIff(pats: seq<string>, t: string)
    ensures AllOccur(pats, t) <==> forall p :: p in pats ==> Contains(t, Lower(p))
    decreases |pats|
  {
    if |pats| > 0 {
      AllOccurIff(pats[1..], t);
      assert forall p :: p in pats <==> p == pats[0] || p in pats[1..];
    }
  }

  /** With no patterns, `matches` is always false and `matches_all` always true. */
  lemma EmptyPatterns(r: UpdateResult, text: string)
    requires r.patterns == []
    ensures !Matches(r, text) && MatchesAll(r, text)
  {
  }

  /** Matching ignores the case of the text. */
  lemma MatchesIgnoresCase(r: UpdateResult, text: string)
    ensures Matches(r, Lower(text)) == Matches(r, text)
    ensures MatchesAll(r, Lower(text)) == MatchesAll(r, text)
  {
    LowerIdempotent(text);
  }

  /** Some pattern of `s`'s entry occurs in the case-folded `text`. */
  predicate Occurs(s: UpdateStatus, text: string) {
    exists p :: p in StatusMapping(s).patterns && Contains(Lower(text), p)
  }

  /** The patterns of `s` are found in the subject alone or in the content alone. */
  predicate Found(s: UpdateStatus, subject: string, content: string) {
    Occurs(s, subject) || Occurs(s, content)
  }

  /**
    The override condition: the case-folded subject and content, joined by a
    space, contain both of its phrases.
   */
  predicate Override(subject: string, content: string) {
    var combined := Lower(subject) + " " + Lower(content);
    Contains(combined, NoPackagesUpgradable) && Contains(combined, RebootRequiredText)
  }

  /** The test `get_status` makes for `s` inside its priority loop. */
  predicate Hit(s: UpdateStatus, subjectCf: string, contentCf: string) {
    Matches(StatusMapping(s), subjectCf) || Matches(StatusMapping(s), contentCf)
  }

  /** The statuses `get_status` tries, in order, after the override. */
  const Priority: seq<UpdateStatus> := [Failed, Warning, Success, NoUpdates, Info]

  /** The first status of `order` that passes the test `hit`, if any does. */
  function FirstHit(order: seq<UpdateStatus>, hit: UpdateStatus -> bool): Option<UpdateStatus>
    decreases |order|
  {
    if |order| == 0 then None
    else if hit(order[0]) then Some(order[0])
    else FirstHit(order[1..], hit)
  }

  /**
    `FirstHit` finds nothing exactly when no status of `order` passes, and
    otherwise a status that passes while every earlier one fails.
   */
  lemma {:induction false} FirstHitIsFirst(order: seq<UpdateStatus>, hit: UpdateStatus -> bool)
    ensures FirstHit(order, hit).None? <==> forall k :: 0 <= k < |order| ==> !hit(order[k])
    ensures FirstHit(order, hit).Some? ==> exists k :: (0 <= k < |order|
      && order[k] == FirstHit(order, hit).value && hit(order[k])
      && forall j :: 0 <= j < k ==> !hit(order[j]))
    decreases |order|
  {
    if |order| == 0 {
    } else if hit(order[0]) {
      assert order[0] == FirstHit(order, hit).value;
    } else {
      var r := FirstHit(order[1..], hit);
      FirstHitIsFirst(order[1..], hit);
      assert forall k :: 1 <= k < |order| ==> order[k] == order[1..][k - 1];
      if r.Some? {
        var k :| 0 <= k < |order| - 1 && order[1..][k] == r.value && hit(order[1..][k])
          && forall j :: 0 <= j < k ==> !hit(order[1..][j]);
        assert order[k + 1] == r.value;
      }
    }
  }

  /** The priority loop of `get_status`, on the case-folded subject and content. */
  function PriorityHit(subjectCf: string, contentCf: string): Option<UpdateStatus> {
    FirstHit(Priority, s => Hit(s, subjectCf, contentCf))
  }

  /** The priority loop tests FAILED, WARNING, SUCCESS, NO_UPDATES and INFO, in that order. */
  lemma PriorityHitUnrolled(subjectCf: string, contentCf: string)
    ensures PriorityHit(subjectCf, contentCf) ==
      if Hit(Failed, subjectCf, contentCf) then Some(Failed)
      else if Hit(Warning, subjectCf, contentCf) then Some(Warning)
      else if Hit(Success, subjectCf, contentCf) then Some(Success)
      else if Hit(NoUpdates, subjectCf, contentCf) then Some(NoUpdates)
      else if Hit(Info, subjectCf, contentCf) then Some(Info)
      else None
  {
    var hit := s => Hit(s, subjectCf, contentCf);
    var tail := Priority[1..];
    assert tail == [Warning, Success, NoUpdates, Info];
    assert tail[1..] == [Success, NoUpdates, Info];
    assert tail[1..][1..] == [NoUpdates, Info];
    assert tail[1..][1..][1..] == [Info];
    assert tail[1..][1..][1..][1..] == [];
    assert FirstHit(tail[1..][1..][1..], hit) == if hit(Info) then Some(Info) else FirstHit([], hit);
  }

  /** `ResultDeterminer.get_status`. */
  function GetStatus(subject: string, content: string): (r: UpdateResult)
    ensures r == StatusMapping(r.status)
  {
    var subjectCf := Lower(subject);
    var contentCf := Lower(content);
    var combined := subjectCf + " " + contentCf;
    if MatchesAll(StatusMapping(NoUpdatesRebootPending), combined) then StatusMapping(NoUpdatesRebootPending)
    else match PriorityHit(subjectCf, contentCf)
      case Some(s) => StatusMapping(s)
      case None => StatusMapping(Info)
  }

  /** The test of the priority loop is the reference condition `Found`. */
  lemma HitIsFound(s: UpdateStatus, subject: string, content: string)
    ensures Hit(s, Lower(subject), Lower(content)) <==> Found(s, subject, content)
  {
    var pats := StatusMapping(s).patterns;
    PatternsFolded(s);
    LowerIdempotent(subject);
    LowerIdempotent(content);
    AnyOccursIff(pats, Lower(Lower(subject)));
    AnyOccursIff(pats, Lower(Lower(content)));
  }

  /** The test `matches_all` makes on the joined text is the reference condition `Override`. */
  lemma MatchesAllIsOverride(subject: string, content: string)
    ensures MatchesAll(StatusMapping(NoUpdatesRebootPending), Lower(subject) + " " + Lower(content))
      <==> Override(subject, content)
  {
    var combined := Lower(subject) + " " + Lower(content);
    var pats := StatusMapping(NoUpdatesRebootPending).patterns;
    assert IsFolded(combined);
    FoldedLower(combined);
    PatternsFolded(NoUpdatesRebootPending);
    AllOccurIff(pats, combined);
    assert pats == [NoPackagesUpgradable, RebootRequiredText];
  }

  /** `get_status` answers `NO_UPDATES_REBOOT_PENDING` on the override, and otherwise what the priority loop finds, or INFO. */
  lemma GetStatusCases(subject: string, content: string)
    ensures Override(subject, content) ==> GetStatus(subject, content).status == NoUpdatesRebootPending
    ensures !Override(subject, content) ==>
      GetStatus(subject, content).status == (match PriorityHit(Lower(subject), Lower(content))
        case Some(s) => s
        case None => Info)
  {
    MatchesAllIsOverride(subject, content);
  }

  /** When both override phrases occur, `get_status` answers `NO_UPDATES_REBOOT_PENDING`, and only then. */
  lemma OverrideWins(subject: string, content: string)
    ensures GetStatus(subject, content).status == NoUpdatesRebootPending <==> Override(subject, content)
  {
    GetStatusCases(subject, content);
    PriorityHitUnrolled(Lower(subject), Lower(content));
  }

  /**
    Without the override, the answer is the first of FAILED, WARNING, SUCCESS
    and NO_UPDATES whose patterns occur in the subject or in the content, and
    INFO exactly when none of them does.
   */
  lemma PriorityOrder(subject: string, content: string)
    requires !Override(subject, content)
    ensures GetStatus(subject, content).status == Failed <==> Found(Failed, subject, content)
    ensures GetStatus(subject, content).status == Warning <==>
      (!Found(Failed, subject, content) && Found(Warning, subject, content))
    ensures GetStatus(subject, content).status == Success <==>
      (!Found(Failed, subject, content) && !Found(Warning, subject, content) && Found(Success, subject, content))
    ensures GetStatus(subject, content).status == NoUpdates <==>
      (!Found(Failed, subject, content) && !Found(Warning, subject, content) && !Found(Success, subject, content)
       && Found(NoUpdates, subject, content))
    ensures GetStatus(subject, content).status == Info <==>
      (!Found(Failed, subject, content) && !Found(Warning, subject, content) && !Found(Success, subject, content)
       && !Found(NoUpdates, subject, content))
  {
    var sc, cc := Lower(subject), Lower(content);
    GetStatusCases(subject, content);
    PriorityHitUnrolled(sc, cc);
    HitIsFound(Failed, subject, content);
    HitIsFound(Warning, subject, content);
    HitIsFound(Success, subject, content);
    HitIsFound(NoUpdates, subject, content);
    EmptyPatterns(StatusMapping(Info), sc);
    EmptyPatterns(StatusMapping(Info), cc);
  }

  /** Matching ignores case: the classification of a text and of its case-folded form agree. */
  lemma GetStatusIgnoresCase(subject: string, content: string)
    ensures GetStatus(Lower(subject), Lower(content)) == GetStatus(subject, content)
  {
    LowerIdempotent(subject);
    LowerIdempotent(content);
  }

  const RebootPatterns: seq<string> := [RebootRequiredText, "reboot-required", "reboot_required", "reboot is required"]

  /** `any(p in subjectCf or p in contentCf for p in pats)`. */
  predicate AnyIn(pats: seq<string>, subjectCf: string, contentCf: string)
    decreases |pats|
  {
    |pats| > 0 && (Contains(subjectCf, pats[0]) || Contains(contentCf, pats[0]) || AnyIn(pats[1..], subjectCf, contentCf))
  }

  /** `ResultDeterminer.is_reboot_required`. */
  predicate IsRebootRequired(subject: string, content: string) {
    AnyIn(RebootPatterns, Lower(subject), Lower(content))
  }

  lemma {:induction false} AnyInIff(pats: seq<string>, subjectCf: string, contentCf: string)
    ensures AnyIn(pats, subjectCf, contentCf) <==>
      exists p :: p in pats && (Contains(subjectCf, p) || Contains(contentCf, p))
    decreases |pats|
  {
    if |pats| > 0 {
      AnyInIff(pats[1..], subjectCf, contentCf);
      assert forall p :: p in pats[1..] ==> p in pats;
      if Contains(subjectCf, pats[0]) || Contains(contentCf, pats[0]) {
        assert pats[0] in pats;
      } else if exists p :: p in pats && (Contains(subjectCf, p) || Contains(contentCf, p)) {
        var p :| p in pats && (Contains(subjectCf, p) || Contains(contentCf, p));
        assert p in pats[1..];
      }
    }
  }

  /**
    A reboot is required exactly when one of the four reboot phrases occurs in
    the case-folded subject or the case-folded content. The status plays no
    part in it.
   */
  lemma RebootIff(subject: string, content: string)
    ensures IsRebootRequired(subject, content) <==>
      exists p :: p in RebootPatterns && (Contains(Lower(subject), p) || Contains(Lower(content), p))
  {
    AnyInIff(RebootPatterns, Lower(subject), Lower(content));
  }

  /**
    `t` cannot contain `p` when the character `p[i]` appears nowhere in `t`
    where an occurrence of `p` would put it.
   */
  lemma WindowMisses(t: string, p: string, i: nat)
    requires i < |p|
    requires forall k :: i <= k && k - i + |p| <= |t| ==> t[k] != p[i]
    ensures !Contains(t, p)
  {
    forall k: nat
      ensures !OccursAt(t, p, k)
    {
      if k + |p| <= |t| {
        assert t[k..k + |p|][i] == t[k + i];
      }
    }
  }

  /**
    The override reads the subject and content joined by a space, while the
    reboot check reads each alone: a subject ending in "reboot" and a content
    starting with "required" give `NO_UPDATES_REBOOT_PENDING` with no reboot
    reported.
   */
  lemma OverrideAcrossJoin(subject: string, content: string)
    requires subject == "Reboot" && content == "required; " + NoPackagesUpgradable
    ensures GetStatus(subject, content).status == NoUpdatesRebootPending
    ensures !IsRebootRequired(subject, content)
  {
    AcrossJoinOverrides(subject, content);
    OverrideWins(subject, content);
    AcrossJoinNoReboot(subject, content);
  }

  lemma AcrossJoinOverrides(subject: string, content: string)
    requires subject == "Reboot" && content == "required; " + NoPackagesUpgradable
    ensures Override(subject, content)
  {
    var head := "required; ";
    assert Lower(subject) == "reboot";
    TailFolded();
    var front := "reboot" + " " + head;
    var combined := Lower(subject) + " " + Lower(content);
    assert combined == front + NoPackagesUpgradable;
    assert OccursAt(combined, RebootRequiredText, 0);
    assert OccursAt(combined, NoPackagesUpgradable, |front|);
  }

  lemma AcrossJoinNoReboot(subject: string, content: string)
    requires subject == "Reboot" && content == "required; " + NoPackagesUpgradable
    ensures !IsRebootRequired(subject, content)
  {
    TailFolded();
    RebootIff(subject, content);
    RebootPatternsShape();
    forall p | p in RebootPatterns
      ensures !Contains(Lower(subject), p) && !Contains(Lower(content), p)
    {
      WindowMisses(Lower(subject), p, 2);
      MissesAfterRequired(p);
    }
  }

  lemma TailFolded()
    ensures Lower("required; " + NoPackagesUpgradable) == "required; " + NoPackagesUpgradable
  {
    assert IsFolded("required; ") && IsFolded(NoPackagesUpgradable);
    FoldedAppend("required; ", NoPackagesUpgradable);
    FoldedLower("required; " + NoPackagesUpgradable);
  }

  /** Each reboot phrase is at least 15 characters long and has a `b` at index 2. */
  lemma RebootPatternsShape()
    ensures forall p :: p in RebootPatterns ==> |p| >= 15 && p[2] == 'b'
  {
  }

  /** No reboot phrase occurs in `"required; no packages found that can be upgraded"`. */
  lemma MissesAfterRequired(p: string)
    requires |p| >= 15 && p[2] == 'b'
    ensures !Contains("required; " + NoPackagesUpgradable, p)
  {
    var t := "required; " + NoPackagesUpgradable;
    assert forall k :: 0 <= k <= 25 ==> NoPackagesUpgradable[k] != 'b';
    assert forall k :: 2 <= k <= 35 ==> t[k] != 'b' by {
      forall k | 2 <= k <= 35
        ensures t[k] != 'b'
      {
        if k >= 10 {
          assert t[k] == NoPackagesUpgradable[k - 10];
        }
      }
    }
    WindowMisses(t, p, 2);
  }
}
