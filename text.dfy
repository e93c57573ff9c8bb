/**
  The few string operations of Python's `str` that the notifier relies on:
  `strip()`, `casefold()` (restricted to ASCII), the substring test `p in t`,
  `''.join(...)`, `sep.join(...)` and `s.split('\n')`.
 */
module Text {

  /** Python's `str.isspace()` on one code point: exactly the characters `strip()` removes. */
  predicate IsSpace(c: char) {
    ('\t' <= c <= '\r') || ('\U{1c}' <= c <= '\U{1f}') || c == ' ' || c == '\U{85}' || c == '\U{a0}'
    || c == '\U{1680}' || ('\U{2000}' <= c <= '\U{200a}') || c == '\U{2028}' || c == '\U{2029}'
    || c == '\U{202f}' || c == '\U{205f}' || c == '\U{3000}'
  }

  /** True when every character of `s` is whitespace (so `s.strip()` is falsy). */
  predicate AllSpace(s: string) {
    forall i :: 0 <= i < |s| ==> IsSpace(s[i])
  }

  /** `s.lstrip()`: the suffix of `s` left after dropping the leading whitespace. */
  function TrimLeft(s: string): (r: string)
    ensures |r| <= |s| && r == s[|s| - |r|..]
    ensures r == [] || !IsSpace(r[0])
    ensures AllSpace(s[..|s| - |r|])
    decreases |s|
  {
    if |s| > 0 && IsSpace(s[0]) then
      var r := TrimLeft(s[1..]);
      assert s[..|s| - |r|] == [s[0]] + s[1..][..|s| - 1 - |r|];
      r
    else
      assert s[..0] == [];
      s
  }

  /** `s.rstrip()`: the prefix of `s` left after dropping the trailing whitespace. */
  function TrimRight(s: string): (r: string)
    ensures |r| <= |s| && r == s[..|r|]
    ensures r == [] || !IsSpace(r[|r| - 1])
    ensures AllSpace(s[|r|..])
    decreases |s|
  {
    if |s| > 0 && IsSpace(s[|s| - 1]) then
      var front := s[..|s| - 1];
      var r := TrimRight(front);
      assert s[|r|..] == front[|r|..] + [s[|s| - 1]];
      assert r == s[..|r|];
      r
    else
      assert s[|s|..] == [];
      s
  }

  /** `s.strip()`: it is empty exactly when `s` is all whitespace. */
  function Strip(s: string): (r: string)
    ensures |r| <= |s|
    ensures r == [] <==> AllSpace(s)
  {
    TrimLeftAllSpace(s);
    TrimRightAllSpace(TrimLeft(s));
    TrimRight(TrimLeft(s))
  }

  /** `lstrip` leaves nothing but whitespace exactly when there was nothing else. */
  lemma TrimLeftAllSpace(s: string)
    ensures AllSpace(TrimLeft(s)) <==> AllSpace(s)
  {
    var l := TrimLeft(s);
    var lead := s[..|s| - |l|];
    assert s == lead + l;
    assert forall i :: 0 <= i < |l| ==> l[i] == s[|lead| + i];
    assert forall i :: |lead| <= i < |s| ==> s[i] == l[i - |lead|];
  }

  /** `rstrip` leaves nothing exactly when there was nothing but whitespace. */
  lemma TrimRightAllSpace(s: string)
    ensures TrimRight(s) == [] <==> AllSpace(s)
  {
    var r := TrimRight(s);
    if r == [] {
      assert s[|r|..] == s;
    } else {
      assert s[|r| - 1] == r[|r| - 1];
    }
  }

  /** Stripping on the right leaves the first character alone unless everything goes. */
  lemma {:induction false} TrimRightCons(c: char, y: string)
    ensures TrimRight([c] + y) == if IsSpace(c) && TrimRight(y) == [] then [] else [c] + TrimRight(y)
    decreases |y|
  {
    var x := [c] + y;
    if |y| > 0 {
      var front := y[..|y| - 1];
      assert x[|x| - 1] == y[|y| - 1];
      assert x[..|x| - 1] == [c] + front;
      if IsSpace(y[|y| - 1]) {
        TrimRightCons(c, front);
        assert TrimRight(x) == TrimRight([c] + front);
        assert TrimRight(y) == TrimRight(front);
      } else {
        assert TrimRight(x) == x && TrimRight(y) == y;
      }
    } else {
      assert x == [c] && x[..0] == [];
    }
  }

  /** `lstrip` and `rstrip` commute. */
  lemma {:induction false} TrimCommute(x: string)
    ensures TrimLeft(TrimRight(x)) == TrimRight(TrimLeft(x))
    decreases |x|
  {
    if |x| > 0 {
      var c, y := x[0], x[1..];
      assert x == [c] + y;
      TrimRightCons(c, y);
      var t := TrimRight(y);
      if IsSpace(c) {
        TrimCommute(y);
        assert TrimLeft(x) == TrimLeft(y);
        if t != [] {
          assert TrimRight(x) == [c] + t;
          assert ([c] + t)[1..] == t;
          assert TrimLeft([c] + t) == TrimLeft(t);
        }
      } else {
        assert TrimLeft(x) == x;
        assert TrimRight(x) == [c] + t;
        assert TrimLeft([c] + t) == [c] + t;
      }
    }
  }

  /** A prefix that begins and ends with non-whitespace survives `strip()` untouched. */
  lemma {:induction false} TrimRightAfter(p: string, b: string)
    requires |p| > 0 && !IsSpace(p[|p| - 1])
    ensures TrimRight(p + b) == p + TrimRight(b)
    decreases |b|
  {
    if |b| > 0 {
      var x := p + b;
      var front := b[..|b| - 1];
      assert x[|x| - 1] == b[|b| - 1];
      assert x[..|x| - 1] == p + front;
      if IsSpace(b[|b| - 1]) {
        TrimRightAfter(p, front);
        assert TrimRight(x) == TrimRight(p + front);
        assert TrimRight(b) == TrimRight(front);
      } else {
        assert TrimRight(x) == x && TrimRight(b) == b;
      }
    } else {
      assert p + b == p;
    }
  }

  lemma StripPrefixed(p: string, s: string)
    requires p <= s && |p| > 0 && !IsSpace(p[0]) && !IsSpace(p[|p| - 1])
    ensures Strip(s) == p + TrimRight(s[|p|..])
  {
    assert TrimLeft(s) == s;
    assert s == p + s[|p|..];
    TrimRightAfter(p, s[|p|..]);
  }

  /** Stripping the right end first does not change what `strip()` gives. */
  lemma StripAfterTrimRight(x: string)
    ensures Strip(TrimRight(x)) == Strip(x)
  {
    TrimCommute(x);
    var l := TrimLeft(x);
    assert TrimRight(TrimRight(l)) == TrimRight(l);
  }

  /** `c.casefold()`, restricted to ASCII letters. */
  function LowerChar(c: char): char {
    if 'A' <= c <= 'Z' then (c as int + 32) as char else c
  }

  /** `s.casefold()`, restricted to ASCII letters. */
  function Lower(s: string): (r: string)
    ensures |r| == |s|
    ensures forall i :: 0 <= i < |s| ==> r[i] == LowerChar(s[i])
  {
    seq(|s|, i requires 0 <= i < |s| => LowerChar(s[i]))
  }

  /** `s` has no upper-case ASCII letter, so case-folding leaves it unchanged (see `FoldedLower`). */
  predicate IsFolded(s: string) {
    forall i :: 0 <= i < |s| ==> !('A' <= s[i] <= 'Z')
  }

  lemma FoldedAppend(a: string, b: string)
    requires IsFolded(a) && IsFolded(b)
    ensures IsFolded(a + b)
  {
    assert forall i :: |a| <= i < |a + b| ==> (a + b)[i] == b[i - |a|];
  }

  lemma FoldedLower(s: string)
    requires IsFolded(s)
    ensures Lower(s) == s
  {
  }

  lemma LowerIdempotent(s: string)
    ensures Lower(Lower(s)) == Lower(s)
  {
  }

  lemma LowerAppend(a: string, b: string)
    ensures Lower(a + b) == Lower(a) + Lower(b)
  {
  }

  /** `p` occurs in `t` starting at index `i`. */
  predicate OccursAt(t: string, p: string, i: nat) {
    i + |p| <= |t| && t[i..i + |p|] == p
  }

  /** Python's `p in t`: `p` occurs somewhere in `t` as a contiguous substring. */
  function Contains(t: string, p: string): (r: bool)
    ensures r <==> exists i: nat :: OccursAt(t, p, i)
    decreases |t|
  {
    if p <= t then
      assert OccursAt(t, p, 0);
      true
    else if |t| == 0 then
      assert forall i: nat :: !OccursAt(t, p, i);
      false
    else
      var r := Contains(t[1..], p);
      assert r ==> exists i: nat :: OccursAt(t, p, i) by {
        if r {
          var i: nat :| OccursAt(t[1..], p, i);
          assert OccursAt(t, p, i + 1);
        }
      }
      assert (exists i: nat :: OccursAt(t, p, i)) ==> r by {
        if exists i: nat :: OccursAt(t, p, i) {
          var i: nat :| OccursAt(t, p, i);
          assert i != 0;
          assert OccursAt(t[1..], p, i - 1);
        }
      }
      r
  }

  /** `''.join(parts)`. */
  function Concat(parts: seq<string>): string
    decreases |parts|
  {
    if |parts| == 0 then "" else parts[0] + Concat(parts[1..])
  }

  /** `''.join(parts)` is empty exactly when every part is. */
  lemma {:induction false} ConcatEmpty(parts: seq<string>)
    ensures Concat(parts) == "" <==> forall k :: 0 <= k < |parts| ==> parts[k] == ""
    decreases |parts|
  {
    if |parts| > 0 {
      ConcatEmpty(parts[1..]);
      assert forall k :: 1 <= k < |parts| ==> parts[k] == parts[1..][k - 1];
    }
  }

  /** A concatenation is all whitespace exactly when both of its parts are. */
  lemma AllSpaceAppend(a: string, b: string)
    ensures AllSpace(a + b) <==> AllSpace(a) && AllSpace(b)
  {
    assert forall i :: 0 <= i < |a| ==> (a + b)[i] == a[i];
    assert forall i :: 0 <= i < |b| ==> (a + b)[|a| + i] == b[i];
  }

  /** `''.join(parts).strip()` is falsy exactly when every part is. */
  lemma {:induction false} ConcatAllSpace(parts: seq<string>)
    ensures AllSpace(Concat(parts)) <==> forall k :: 0 <= k < |parts| ==> AllSpace(parts[k])
    decreases |parts|
  {
    if |parts| > 0 {
      ConcatAllSpace(parts[1..]);
      AllSpaceAppend(parts[0], Concat(parts[1..]));
      assert forall k :: 1 <= k < |parts| ==> parts[k] == parts[1..][k - 1];
    }
  }

  /** `sep.join(parts)`. */
  function JoinWith(parts: seq<string>, sep: string): string
    decreases |parts|
  {
    if |parts| == 0 then ""
    else if |parts| == 1 then parts[0]
    else parts[0] + sep + JoinWith(parts[1..], sep)
  }

  /** Appending one more part to a non-empty join adds the separator and the part. */
  lemma {:induction false} JoinWithSnoc(parts: seq<string>, x: string, sep: string)
    requires |parts| > 0
    ensures JoinWith(parts + [x], sep) == JoinWith(parts, sep) + sep + x
    decreases |parts|
  {
    if |parts| > 1 {
      assert (parts + [x])[1..] == parts[1..] + [x];
      JoinWithSnoc(parts[1..], x, sep);
    } else {
      assert (parts + [x])[1..] == [x];
    }
  }

  /** Python's `s.split('\n')`: the pieces between the newlines, at least one of them. */
  function SplitLines(s: string): (r: seq<string>)
    ensures |r| >= 1
    ensures forall k :: 0 <= k < |r| ==> '\n' !in r[k]
    decreases |s|
  {
    if s == "" then [""]
    else if s[0] == '\n' then [""] + SplitLines(s[1..])
    else
      var rest := SplitLines(s[1..]);
      [[s[0]] + rest[0]] + rest[1..]
  }

  /** Joining the pieces of `s.split('\n')` with newlines gives `s` back. */
  lemma {:induction false} SplitLinesJoin(s: string)
    ensures JoinWith(SplitLines(s), "\n") == s
    decreases |s|
  {
    if s != "" {
      SplitLinesJoin(s[1..]);
      var rest := SplitLines(s[1..]);
      if s[0] == '\n' {
        assert ([""] + rest)[1..] == rest;
      } else {
        var r := [[s[0]] + rest[0]] + rest[1..];
        if |rest| > 1 {
          assert r[1..] == rest[1..];
          assert JoinWith(rest, "\n") == rest[0] + "\n" + JoinWith(rest[1..], "\n");
        }
      }
    }
  }

  /** Splitting a newline-join of newline-free pieces gives the pieces back. */
  lemma {:induction false} JoinSplitLines(parts: seq<string>)
    requires |parts| >= 1
    requires forall k :: 0 <= k < |parts| ==> '\n' !in parts[k]
    ensures SplitLines(JoinWith(parts, "\n")) == parts
    decreases |parts|, |parts[0]|
  {
    var p := parts[0];
    if p == "" {
      if |parts| > 1 {
        JoinSplitLines(parts[1..]);
        assert JoinWith(parts, "\n") == "\n" + JoinWith(parts[1..], "\n");
      }
    } else {
      var q := [p[1..]] + parts[1..];
      assert q[1..] == parts[1..];
      assert '\n' !in p[1..] by {
        assert forall c :: c in p[1..] ==> c in p;
      }
      JoinSplitLines(q);
      var j := JoinWith(q, "\n");
      assert JoinWith(parts, "\n") == [p[0]] + j by {
        if |parts| > 1 {
          assert JoinWith(parts, "\n") == p + "\n" + JoinWith(parts[1..], "\n");
          assert j == p[1..] + "\n" + JoinWith(parts[1..], "\n");
        }
        assert p == [p[0]] + p[1..];
      }
      assert ([p[0]] + j)[1..] == j;
      assert p[0] in p;
    }
  }
}
