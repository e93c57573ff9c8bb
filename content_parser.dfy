/**
  The line-boundary searches of the notifier's `ContentParser`: the last
  `Subject:` line, the main content section and the package installation log,
  each located by index in the report's list of lines.

  The source's regular expressions are all of the form `^literal`, so a match
  is a prefix test (`p <= line`).
 */
module ContentParser {
  import opened Wrappers
  import opened Text

  const SubjectPrefix := "Subject:"

  /** Lines that open the main content section, in the source's declaration order. */
  const ContentStartPrefixes: seq<string> :=
    ["Unattended upgrade", "unattended upgrades", "No packages found", "Starting unattended upgrades script"]

  /** Lines that follow the main content section. */
  const ContentEndPrefixes: seq<string> := ["Package installation log:", "unattended-upgrades log:"]

  const LogStartPrefix := "Package installation log:"
  const LogEndPrefix := "Log ended:"

  /** `pattern.match(line)` for some `^literal` pattern of `pats`. */
  predicate MatchesAny(line: string, pats: seq<string>)
    decreases |pats|
  {
    |pats| > 0 && (pats[0] <= line || MatchesAny(line, pats[1..]))
  }

  /** Some pattern of `pats` is a prefix of `line`. */
  lemma {:induction false} MatchesAnyIff(line: string, pats: seq<string>)
    ensures MatchesAny(line, pats) <==> exists p :: p in pats && p <= line
    decreases |pats|
  {
    if |pats| > 0 {
      MatchesAnyIff(line, pats[1..]);
      assert forall p :: p in pats[1..] ==> p in pats;
      if pats[0] <= line {
        assert pats[0] in pats;
      } else if exists p :: p in pats && p <= line {
        var p :| p in pats && p <= line;
        assert p in pats[1..] && p <= line;
      }
    }
  }

  /** A single `^literal` pattern matches exactly the lines it is a prefix of. */
  lemma MatchesOne(p: string)
    ensures forall line :: MatchesAny(line, [p]) <==> p <= line
  {
    assert [p][1..] == [];
  }

  predicate IsSubjectLine(line: string) { SubjectPrefix <= line }
  predicate IsContentStart(line: string) { MatchesAny(line, ContentStartPrefixes) }
  predicate IsContentEnd(line: string) { MatchesAny(line, ContentEndPrefixes) }
  predicate IsLogStart(line: string) { LogStartPrefix <= line }
  predicate IsLogEnd(line: string) { LogEndPrefix <= line }

  /** The line has a non-whitespace character, so `line.strip()` is truthy (see `Strip`). */
  predicate IsNonBlank(line: string) { !AllSpace(line) }

  /** The highest index whose line starts with one of `pats`, if there is one. */
  function LastMatching(lines: seq<string>, pats: seq<string>): (r: Option<nat>)
    ensures r.None? <==> forall j :: 0 <= j < |lines| ==> !MatchesAny(lines[j], pats)
    ensures r.Some? ==> (r.value < |lines| && MatchesAny(lines[r.value], pats)
      && forall j :: r.value < j < |lines| ==> !MatchesAny(lines[j], pats))
    decreases |lines|
  {
    if |lines| == 0 then None
    else if MatchesAny(lines[|lines| - 1], pats) then Some(|lines| - 1)
    else LastMatching(lines[..|lines| - 1], pats)
  }

  /** The lowest index whose line starts with one of `pats`, if there is one. */
  function FirstMatching(lines: seq<string>, pats: seq<string>): (r: Option<nat>)
    ensures r.None? <==> forall j :: 0 <= j < |lines| ==> !MatchesAny(lines[j], pats)
    ensures r.Some? ==> (r.value < |lines| && MatchesAny(lines[r.value], pats)
      && forall j :: 0 <= j < r.value ==> !MatchesAny(lines[j], pats))
    decreases |lines|
  {
    if |lines| == 0 then None
    else if MatchesAny(lines[0], pats) then Some(0)
    else match FirstMatching(lines[1..], pats)
      case None => None
      case Some(k) => Some(k + 1)
  }

  /** The highest index whose line is not blank, if there is one. */
  function LastNonBlank(lines: seq<string>): (r: Option<nat>)
    ensures r.None? <==> forall j :: 0 <= j < |lines| ==> !IsNonBlank(lines[j])
    ensures r.Some? ==> (r.value < |lines| && IsNonBlank(lines[r.value])
      && forall j :: r.value < j < |lines| ==> !IsNonBlank(lines[j]))
    decreases |lines|
  {
    if |lines| == 0 then None
    else if IsNonBlank(lines[|lines| - 1]) then Some(|lines| - 1)
    else
      var front := lines[..|lines| - 1];
      assert forall j :: 0 <= j < |front| ==> front[j] == lines[j];
      LastNonBlank(front)
  }

  /** The line found by a reverse scan is the one `LastMatching` names. */
  lemma LastMatchingIs(lines: seq<string>, pats: seq<string>, k: nat)
    requires k < |lines| && MatchesAny(lines[k], pats)
    requires forall j :: k < j < |lines| ==> !MatchesAny(lines[j], pats)
    ensures LastMatching(lines, pats) == Some(k)
  {
  }

  /** The line found by a reverse scan is the one `LastNonBlank` names. */
  lemma LastNonBlankIs(lines: seq<string>, k: nat)
    requires k < |lines| && IsNonBlank(lines[k])
    requires forall j :: k < j < |lines| ==> !IsNonBlank(lines[j])
    ensures LastNonBlank(lines) == Some(k)
  {
  }

  /** Two pattern lists that name the same patterns find the same last line. */
  lemma {:induction false} LastMatchingAgree(lines: seq<string>, a: seq<string>, b: seq<string>)
    requires forall p :: p in a <==> p in b
    ensures LastMatching(lines, a) == LastMatching(lines, b)
    decreases |lines|
  {
    if |lines| > 0 {
      var last := lines[|lines| - 1];
      MatchesAnyIff(last, a);
      MatchesAnyIff(last, b);
      LastMatchingAgree(lines[..|lines| - 1], a, b);
    }
  }

  /**
    `lines[i].strip().split("Subject:", 1)[1].strip()` for a line that starts
    with `Subject:`: it is the remainder after the prefix, stripped.
   */
  function SubjectText(line: string): (r: string)
    requires IsSubjectLine(line)
    ensures r == Strip(line[|SubjectPrefix|..])
  {
    StripPrefixed(SubjectPrefix, line);
    StripAfterTrimRight(line[|SubjectPrefix|..]);
    var stripped := Strip(line);
    // The stripped line still starts with "Subject:", so the first occurrence
    // that `split("Subject:", 1)` cuts at is at index 0.
    Strip(stripped[|SubjectPrefix|..])
  }

  /** What `find_last_subject` returns. */
  function SubjectOf(lines: seq<string>): Option<string> {
    match LastMatching(lines, [SubjectPrefix])
    case None => None
    case Some(i) => (MatchesOne(SubjectPrefix); Some(SubjectText(lines[i])))
  }

  /**
    `find_last_subject` finds nothing exactly when no line starts with
    `Subject:`, and otherwise the stripped remainder of the last such line.
   */
  lemma SubjectOfShape(lines: seq<string>)
    ensures SubjectOf(lines).None? <==> forall j :: 0 <= j < |lines| ==> !IsSubjectLine(lines[j])
    ensures SubjectOf(lines).Some? ==> exists i :: (0 <= i < |lines| && IsSubjectLine(lines[i])
      && SubjectOf(lines).value == Strip(lines[i][|SubjectPrefix|..])
      && forall j :: i < j < |lines| ==> !IsSubjectLine(lines[j]))
  {
    MatchesOne(SubjectPrefix);
  }

  /** `ContentParser.find_last_subject`: scan from the last line back to the first. */
  method FindLastSubject(lines: seq<string>) returns (subject: Option<string>)
    ensures subject == SubjectOf(lines)
  {
    MatchesOne(SubjectPrefix);
    var i := |lines|;
    while i > 0
      invariant 0 <= i <= |lines|
      invariant forall j :: i <= j < |lines| ==> !MatchesAny(lines[j], [SubjectPrefix])
    {
      i := i - 1;
      if SubjectPrefix <= lines[i] {
        LastMatchingIs(lines, [SubjectPrefix], i);
        return Some(SubjectText(lines[i]));
      }
    }
    assert LastMatching(lines, [SubjectPrefix]) == None;
    return None;
  }

  /** A pair of line indices, either of which may be missing; `end` may be -1. */
  datatype Span = Span(start: Option<nat>, end: Option<int>)

  /**
    The content section located with the start and end pattern lists given:
    the last start line; one before the last end line, or else (only when a
    start line exists) the last non-blank line.
   */
  function ContentIndicesWith(lines: seq<string>, starts: seq<string>, ends: seq<string>): Span {
    var start := LastMatching(lines, starts);
    var marker := LastMatching(lines, ends);
    var end: Option<int> :=
      if marker.Some? then Some(marker.value - 1)
      else if start.Some? then LastNonBlank(lines)
      else None;
    Span(start, end)
  }

  /** Only which patterns are listed matters, never the order they are listed in. */
  lemma ContentIndicesOrderFree(lines: seq<string>, s1: seq<string>, s2: seq<string>, e1: seq<string>, e2: seq<string>)
    requires forall p :: p in s1 <==> p in s2
    requires forall p :: p in e1 <==> p in e2
    ensures ContentIndicesWith(lines, s1, e1) == ContentIndicesWith(lines, s2, e2)
  {
    LastMatchingAgree(lines, s1, s2);
    LastMatchingAgree(lines, e1, e2);
    assert ContentIndicesWith(lines, s1, e1).start == ContentIndicesWith(lines, s2, e2).start;
    assert ContentIndicesWith(lines, s1, e1).end == ContentIndicesWith(lines, s2, e2).end;
  }

  /** What `find_content_indices` returns. */
  function ContentIndices(lines: seq<string>): Span {
    ContentIndicesWith(lines, ContentStartPrefixes, ContentEndPrefixes)
  }

  /**
    The content section found with start patterns that open with text: the
    last start line; one before the last end line when there is one; otherwise,
    when a start line exists, the last non-blank line, which is then not
    before the start line; and nothing when neither marker occurs.
   */
  lemma ContentIndicesWithShape(lines: seq<string>, starts: seq<string>, ends: seq<string>)
    requires OpensWithText(starts)
    ensures var r := ContentIndicesWith(lines, starts, ends);
      && (r.start.None? <==> forall j :: 0 <= j < |lines| ==> !MatchesAny(lines[j], starts))
      && (r.start.Some? ==> (r.start.value < |lines| && MatchesAny(lines[r.start.value], starts)
        && forall j :: r.start.value < j < |lines| ==> !MatchesAny(lines[j], starts)))
      && (forall k :: (0 <= k < |lines| && MatchesAny(lines[k], ends)
        && forall j :: k < j < |lines| ==> !MatchesAny(lines[j], ends)) ==> r.end == Some(k - 1))
      && ((forall j :: 0 <= j < |lines| ==> !MatchesAny(lines[j], ends)) ==>
        (if r.start.None? then r.end.None?
         else (r.end.Some? && r.start.value <= r.end.value < |lines| && IsNonBlank(lines[r.end.value])
           && forall j :: r.end.value < j < |lines| ==> !IsNonBlank(lines[j]))))
      && (r.end.Some? ==> -1 <= r.end.value < |lines|)
  {
    var start := LastMatching(lines, starts);
    if start.Some? {
      MatchedNonBlank(lines[start.value], starts);
    }
    forall k | 0 <= k < |lines| && MatchesAny(lines[k], ends) && forall j :: k < j < |lines| ==> !MatchesAny(lines[j], ends)
      ensures LastMatching(lines, ends) == Some(k)
    {
      LastMatchingIs(lines, ends, k);
    }
  }

  /** Every content start pattern opens with text. */
  lemma StartsOpenWithText()
    ensures OpensWithText(ContentStartPrefixes)
  {
  }

  /**
    `find_content_indices`: `start` is the last content start line; `end` is
    one before the last content end line; with no end line, `end` is the last
    non-blank line when a start exists (never before it), and nothing otherwise.
   */
  lemma ContentIndicesShape(lines: seq<string>)
    ensures var r := ContentIndices(lines);
      && (r.start.None? <==> forall j :: 0 <= j < |lines| ==> !IsContentStart(lines[j]))
      && (r.start.Some? ==> (r.start.value < |lines| && IsContentStart(lines[r.start.value])
        && forall j :: r.start.value < j < |lines| ==> !IsContentStart(lines[j])))
      && (forall k :: (0 <= k < |lines| && IsContentEnd(lines[k])
        && forall j :: k < j < |lines| ==> !IsContentEnd(lines[j])) ==> r.end == Some(k - 1))
      && ((forall j :: 0 <= j < |lines| ==> !IsContentEnd(lines[j])) ==>
        (if r.start.None? then r.end.None?
         else (r.end.Some? && r.start.value <= r.end.value < |lines| && IsNonBlank(lines[r.end.value])
           && forall j :: r.end.value < j < |lines| ==> !IsNonBlank(lines[j]))))
      && (r.end.Some? ==> -1 <= r.end.value < |lines|)
  {
    StartsOpenWithText();
    ContentIndicesWithShape(lines, ContentStartPrefixes, ContentEndPrefixes);
  }

  /** The inner `for pattern in patterns: if pattern.match(line): ... break`. */
  method MatchesAnyPattern(line: string, pats: seq<string>) returns (hit: bool)
    ensures hit == MatchesAny(line, pats)
  {
    var k := 0;
    while k < |pats|
      invariant 0 <= k <= |pats|
      invariant MatchesAny(line, pats) == MatchesAny(line, pats[k..])
    {
      if pats[k] <= line {
        return true;
      }
      assert pats[k..][1..] == pats[k + 1..];
      k := k + 1;
    }
    return false;
  }

  /** Every pattern of `pats` begins with a non-whitespace character. */
  predicate OpensWithText(pats: seq<string>) {
    forall p :: p in pats ==> |p| > 0 && !IsSpace(p[0])
  }

  /** A line matched by such a pattern list is never blank. */
  lemma MatchedNonBlank(line: string, pats: seq<string>)
    requires OpensWithText(pats) && MatchesAny(line, pats)
    ensures IsNonBlank(line)
  {
    MatchesAnyIff(line, pats);
    var p :| p in pats && p <= line;
    assert line[0] == p[0];
  }

  /**
    A reverse scan that has looked at `lines[i..]` has `found` the last line
    matching `pats` there, or rightly found none.
   */
  predicate ScannedBack(lines: seq<string>, pats: seq<string>, i: nat, found: Option<nat>) {
    i <= |lines| &&
    match found
    case None => forall j :: i <= j < |lines| ==> !MatchesAny(lines[j], pats)
    case Some(k) =>
      (i <= k < |lines| && MatchesAny(lines[k], pats)
       && forall j :: k < j < |lines| ==> !MatchesAny(lines[j], pats))
  }

  /** Looking at one more line, `lines[i - 1]`, keeps a line found and finds it if it is the first match. */
  lemma ScannedBackStep(lines: seq<string>, pats: seq<string>, i: nat, found: Option<nat>)
    requires 0 < i && ScannedBack(lines, pats, i, found)
    ensures found.Some? ==> ScannedBack(lines, pats, i - 1, found)
    ensures found.None? && MatchesAny(lines[i - 1], pats) ==> ScannedBack(lines, pats, i - 1, Some(i - 1))
    ensures found.None? && !MatchesAny(lines[i - 1], pats) ==> ScannedBack(lines, pats, i - 1, None)
  {
  }

  /** A scan that has found a line, or has looked at every line, has found `LastMatching`. */
  lemma ScannedBackResult(lines: seq<string>, pats: seq<string>, i: nat, found: Option<nat>)
    requires ScannedBack(lines, pats, i, found) && (found.Some? || i == 0)
    ensures found == LastMatching(lines, pats)
  {
    if found.Some? {
      LastMatchingIs(lines, pats, found.value);
    }
  }

  /**
    The body of `find_content_indices` for the pattern lists it declares: one
    reverse scan that settles `start` and `end` as it meets their markers and
    stops once both are known, then, when a start but no end marker was seen,
    a second reverse scan for the last non-blank line.
   */
  method ScanContent(lines: seq<string>, starts: seq<string>, ends: seq<string>)
      returns (start: Option<nat>, end: Option<int>)
    ensures Span(start, end) == ContentIndicesWith(lines, starts, ends)
  {
    start, end := None, None;
    ghost var marker: Option<nat> := None;  // the end-marker line, once seen
    var i: nat := |lines|;
    while i > 0
      invariant ScannedBack(lines, starts, i, start)
      invariant ScannedBack(lines, ends, i, marker)
      invariant end == if marker.Some? then Some(marker.value - 1) else None
    {
      ScannedBackStep(lines, starts, i, start);
      ScannedBackStep(lines, ends, i, marker);
      i := i - 1;
      var line := lines[i];
      if start.None? {
        var hit := MatchesAnyPattern(line, starts);
        if hit {
          start := Some(i);
        }
      }
      if end.None? {
        var hit := MatchesAnyPattern(line, ends);
        if hit {
          end := Some(i - 1);
          marker := Some(i);
        }
      }
      if start.Some? && end.Some? {
        break;
      }
    }
    ScanSettled(lines, starts, ends, i, start, marker);
    if start.Some? && end.None? {
      end := FindLastNonBlank(lines);
    }
  }

  /** What a finished reverse scan for both markers has settled of `ContentIndicesWith`. */
  lemma ScanSettled(lines: seq<string>, starts: seq<string>, ends: seq<string>, i: nat,
                    start: Option<nat>, marker: Option<nat>)
    requires ScannedBack(lines, starts, i, start) && ScannedBack(lines, ends, i, marker)
    requires i == 0 || (start.Some? && marker.Some?)
    ensures ContentIndicesWith(lines, starts, ends).start == start
    ensures marker.Some? ==> ContentIndicesWith(lines, starts, ends).end == Some(marker.value - 1)
    ensures marker.None? && start.Some? ==> ContentIndicesWith(lines, starts, ends).end == LastNonBlank(lines)
    ensures marker.None? && start.None? ==> ContentIndicesWith(lines, starts, ends).end == None
  {
    ScannedBackResult(lines, starts, i, start);
    ScannedBackResult(lines, ends, i, marker);
  }

  /** The fallback scan of `find_content_indices`: the last line whose `strip()` is truthy. */
  method FindLastNonBlank(lines: seq<string>) returns (last: Option<nat>)
    ensures last == LastNonBlank(lines)
  {
    var k := |lines|;
    while k > 0
      invariant 0 <= k <= |lines|
      invariant forall j :: k <= j < |lines| ==> !IsNonBlank(lines[j])
    {
      k := k - 1;
      if Strip(lines[k]) != "" {
        LastNonBlankIs(lines, k);
        return Some(k);
      }
    }
    return None;
  }

  /** `ContentParser.find_content_indices`. */
  method FindContentIndices(lines: seq<string>) returns (start: Option<nat>, end: Option<int>)
    ensures Span(start, end) == ContentIndices(lines)
  {
    start, end := ScanContent(lines, ContentStartPrefixes, ContentEndPrefixes);
  }

  /** What `find_log_indices` returns. */
  function LogIndices(lines: seq<string>): (r: Span)
    ensures r.start.None? <==> forall j :: 0 <= j < |lines| ==> !IsLogStart(lines[j])
    ensures r.start.Some? ==> (r.start.value < |lines| && IsLogStart(lines[r.start.value])
      && forall j :: 0 <= j < r.start.value ==> !IsLogStart(lines[j]))
    ensures r.end.None? <==> forall j :: 0 <= j < |lines| ==> !IsLogEnd(lines[j])
    ensures r.end.Some? ==> (-1 <= r.end.value && r.end.value + 1 < |lines| && IsLogEnd(lines[r.end.value + 1])
      && forall j :: r.end.value + 1 < j < |lines| ==> !IsLogEnd(lines[j]))
  {
    MatchesOne(LogStartPrefix);
    MatchesOne(LogEndPrefix);
    var end: Option<int> :=
      match LastMatching(lines, [LogEndPrefix])
      case None => None
      case Some(k) => Some(k - 1);
    Span(FirstMatching(lines, [LogStartPrefix]), end)
  }

  /**
    `ContentParser.find_log_indices`: a forward scan for the first
    installation-log header and a reverse scan for the last `Log ended:` line.
   */
  method FindLogIndices(lines: seq<string>) returns (start: Option<nat>, end: Option<int>)
    ensures Span(start, end) == LogIndices(lines)
  {
    ghost var spec := LogIndices(lines);
    start, end := None, None;
    var i := 0;
    while i < |lines|
      invariant 0 <= i <= |lines|
      invariant forall j :: 0 <= j < i ==> !IsLogStart(lines[j])
    {
      if LogStartPrefix <= lines[i] {
        start := Some(i);
        assert !(spec.start.value < i) && !(i < spec.start.value);
        break;
      }
      i := i + 1;
    }
    assert spec.start == start;
    var k := |lines|;
    while k > 0
      invariant 0 <= k <= |lines|
      invariant forall j :: k <= j < |lines| ==> !IsLogEnd(lines[j])
    {
      k := k - 1;
      if LogEndPrefix <= lines[k] {
        end := Some(k - 1);
        assert !(spec.end.value < k - 1) && !(k - 1 < spec.end.value);
        break;
      }
    }
    assert spec.end == end;
  }
}
