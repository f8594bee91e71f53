/**
 * Splitting a subtitle file into cue blocks.
 *
 * The stages split their input with three different separators:
 * `re.split(r'\n\s*\n', s)` (a blank line that may hold whitespace),
 * `re.split(r'\n{2,}', s)` (two or more bare newlines) and
 * `s.split('\n\n')`; a block is then cut into lines with `split('\n')` or
 * `splitlines()`.  All of them are leftmost-first scans; a separator is
 * described by a matcher giving the length of the separator that starts at
 * the front of a string (0 when none does).
 */
module Blocks {
  import opened Text

  /** A matcher never claims more characters than there are. */
  ghost predicate Matcher(f: string -> nat) {
    forall t :: f(t) <= |t|
  }

  /** The leftmost position at which the separator matches, or `|s|` when none does. */
  function FirstMatch(s: string, f: string -> nat): (p: nat)
    ensures p <= |s|
    ensures p < |s| ==> f(s[p..]) > 0
    ensures forall j :: 0 <= j < p ==> f(s[j..]) == 0
    decreases |s|
  {
    if |s| == 0 then 0
    else if f(s) > 0 then 0
    else
      var p := FirstMatch(s[1..], f);
      assert forall j :: 1 <= j <= |s| ==> s[1..][j - 1..] == s[j..];
      1 + p
  }

  /** The pieces between the separators, and the separators themselves, in order. */
  function SplitWithSeps(s: string, f: string -> nat): (r: (seq<string>, seq<string>))
    requires Matcher(f)
    ensures |r.0| == |r.1| + 1
    ensures forall k :: 0 <= k < |r.1| ==> |r.1[k]| > 0
    ensures Interleave(r.0, r.1) == s
    decreases |s|
  {
    var p := FirstMatch(s, f);
    if p == |s| then ([s], [])
    else
      var n := f(s[p..]);
      var rest := SplitWithSeps(s[p + n..], f);
      InterleaveStep(s, p, p + n, rest.0, rest.1);
      ([s[..p]] + rest.0, [s[p..p + n]] + rest.1)
  }

  lemma {:induction false} InterleaveStep(s: string, i: nat, j: nat, pieces: seq<string>, seps: seq<string>)
    requires i <= j <= |s| && |pieces| == |seps| + 1
    requires Interleave(pieces, seps) == s[j..]
    ensures Interleave([s[..i]] + pieces, [s[i..j]] + seps) == s
    ensures forall k :: 1 <= k < |seps| + 1 ==> ([s[i..j]] + seps)[k] == seps[k - 1]
  {
    InterleaveCons(s[..i], s[i..j], pieces, seps);
    assert s == s[..i] + s[i..j] + s[j..];
  }

  lemma {:induction false} InterleaveCons(piece: string, sep: string, pieces: seq<string>, seps: seq<string>)
    requires |pieces| == |seps| + 1
    ensures Interleave([piece] + pieces, [sep] + seps) == piece + sep + Interleave(pieces, seps)
    ensures forall k :: 1 <= k < |seps| + 1 ==> ([sep] + seps)[k] == seps[k - 1]
  {
    assert ([piece] + pieces)[1..] == pieces;
    assert ([sep] + seps)[1..] == seps;
  }

  /** `piece0 + sep0 + piece1 + sep1 + … + pieceN`. */
  function Interleave(pieces: seq<string>, seps: seq<string>): string
    requires |pieces| == |seps| + 1
    decreases |seps|
  {
    if |seps| == 0 then pieces[0] else pieces[0] + seps[0] + Interleave(pieces[1..], seps[1..])
  }

  /** `re.split(pattern, s)` for a pattern that never matches the empty string. */
  function SplitOn(s: string, f: string -> nat): (r: seq<string>)
    requires Matcher(f)
    ensures |r| >= 1
  {
    SplitWithSeps(s, f).0
  }

  // ---------------------------------------------------------------------------
  // The concrete separators
  // ---------------------------------------------------------------------------

  /** Index of the last `'\n'` in `t[..k]`, or -1. */
  function LastNewline(t: string, k: nat): (e: int)
    requires k <= |t|
    ensures -1 <= e < k
    ensures e >= 0 ==> t[e] == '\n'
    ensures forall j :: e < j < k ==> t[j] != '\n'
  {
    if k == 0 then -1 else if t[k - 1] == '\n' then k - 1 else LastNewline(t, k - 1)
  }

  /**
   * The match of `\n\s*\n` at the front of `t`: a newline, then the greedy
   * whitespace run, backed off to its last newline.
   */
  function BlankSepLen(t: string): (n: nat)
    ensures n <= |t|
    ensures n > 0 ==> n >= 2 && t[0] == '\n' && t[n - 1] == '\n' && AllSpace(t[..n])
  {
    if |t| >= 1 && t[0] == '\n' then
      var rest := t[1..];
      var e := LastNewline(rest, SpaceRun(rest));
      if e >= 0 then
        assert t[..e + 2] == [t[0]] + rest[..e + 1];
        e + 2
      else 0
    else 0
  }

  /** The match of `\n{2,}` at the front of `t`: every newline of the leading run, if at least two. */
  function NewlineRunLen(t: string): (n: nat)
    ensures n <= |t|
    ensures n > 0 ==> n >= 2 && forall j :: 0 <= j < n ==> t[j] == '\n'
    ensures n > 0 && n < |t| ==> t[n] != '\n'
  {
    var k := NewlineRun(t);
    if k >= 2 then k else 0
  }

  function NewlineRun(t: string): (k: nat)
    ensures k <= |t|
    ensures forall j :: 0 <= j < k ==> t[j] == '\n'
    ensures k < |t| ==> t[k] != '\n'
    decreases |t|
  {
    if |t| > 0 && t[0] == '\n' then 1 + NewlineRun(t[1..]) else 0
  }

  /** The literal separator `"\n\n"` of `str.split('\n\n')`. */
  function DoubleNewlineLen(t: string): (n: nat)
    ensures n <= |t|
    ensures n == 0 || n == 2
  {
    if |t| >= 2 && t[0] == '\n' && t[1] == '\n' then 2 else 0
  }

  /** A line boundary of `str.splitlines()`: `\r\n`, or one of its single-character breaks. */
  function LineBreakLen(t: string): (n: nat)
    ensures n <= |t|
    ensures n <= 2
  {
    if |t| >= 2 && t[0] == '\r' && t[1] == '\n' then 2
    else if |t| >= 1 && IsLineBreak(t[0]) then 1
    else 0
  }

  predicate IsLineBreak(c: char) {
    c == '\n' || c == '\r' || c == '\U{B}' || c == '\U{C}' || ('\U{1C}' <= c <= '\U{1E}')
    || c == '\U{85}' || c == '\U{2028}' || c == '\U{2029}'
  }

  /** `re.split(r'\n\s*\n', s)`. */
  function SplitBlank(s: string): (r: seq<string>)
    ensures |r| >= 1
  {
    SplitOn(s, BlankSepLen)
  }

  /** `re.split(r'\n{2,}', s)`. */
  function SplitNewlineRuns(s: string): (r: seq<string>)
    ensures |r| >= 1
  {
    SplitOn(s, NewlineRunLen)
  }

  /** `s.split('\n\n')`. */
  function SplitDoubleNewline(s: string): (r: seq<string>)
    ensures |r| >= 1
  {
    SplitOn(s, DoubleNewlineLen)
  }

  /** `s.splitlines()`: no trailing empty piece, and none at all for the empty string. */
  function SplitLines(s: string): (r: seq<string>)
    ensures s == "" ==> r == []
    ensures s != "" ==> 1 <= |r| <= |SplitOn(s, LineBreakLen)|
  {
    if s == "" then []
    else
      var pieces := SplitOn(s, LineBreakLen);
      if |pieces| > 1 && pieces[|pieces| - 1] == "" then pieces[..|pieces| - 1] else pieces
  }

  /** `s.split('\n')`. */
  function Lines(s: string): (r: seq<string>)
    ensures |r| >= 1
  {
    Split(s, '\n')
  }

  // ---------------------------------------------------------------------------
  // Round trip of the blank-line separator
  // ---------------------------------------------------------------------------

  /** No blank-line separator starts anywhere inside `p`. */
  predicate BlankFree(p: string) {
    forall j :: 0 <= j < |p| ==> BlankSepLen(p[j..]) == 0
  }

  /** A block that can be written between blank-line separators and read back intact. */
  predicate SeparableBlock(p: string) {
    |p| > 0 && !IsSpace(p[0]) && !IsSpace(p[|p| - 1]) && BlankFree(p)
  }

  lemma {:induction false} SpaceRunPrefix(a: string, b: string)
    requires SpaceRun(a) < |a|
    ensures SpaceRun(a + b) == SpaceRun(a)
    decreases |a|
  {
    assert (a + b)[0] == a[0];
    if IsSpace(a[0]) {
      assert (a + b)[1..] == a[1..] + b;
      SpaceRunPrefix(a[1..], b);
    }
  }

  lemma {:induction false} LastNewlinePrefix(a: string, b: string, k: nat)
    requires k <= |a|
    ensures LastNewline(a + b, k) == LastNewline(a, k)
    decreases k
  {
    if k > 0 {
      assert (a + b)[k - 1] == a[k - 1];
      LastNewlinePrefix(a, b, k - 1);
    }
  }

  /** Whether a blank-line separator starts at the front of `t` does not depend on
      what follows `t` when `t` ends in a non-whitespace character. */
  lemma {:induction false} BlankSepLocal(t: string, u: string)
    requires |t| > 0 && !IsSpace(t[|t| - 1])
    ensures BlankSepLen(t + u) == BlankSepLen(t)
  {
    assert (t + u)[0] == t[0];
    if t[0] == '\n' {
      var rest := t[1..];
      assert (t + u)[1..] == rest + u;
      assert |rest| > 0 && rest[|rest| - 1] == t[|t| - 1];
      SpaceRunPrefix(rest, u);
      LastNewlinePrefix(rest, u, SpaceRun(rest));
    }
  }

  lemma {:induction false} BlankSepOfDoubleNewline(rest: string)
    requires |rest| == 0 || !IsSpace(rest[0])
    ensures BlankSepLen("\n\n" + rest) == 2
  {
    var t := "\n\n" + rest;
    assert t[1..] == "\n" + rest;
    assert SpaceRun(t[1..]) == 1 by {
      assert t[1..][1..] == rest;
    }
  }

  /** The first separator in `p + "\n\n" + rest` is the written one. */
  lemma {:induction false} FirstMatchAfterBlock(p: string, rest: string)
    requires SeparableBlock(p)
    requires |rest| == 0 || !IsSpace(rest[0])
    ensures FirstMatch(p + "\n\n" + rest, BlankSepLen) == |p|
  {
    var s := p + "\n\n" + rest;
    forall j | 0 <= j < |p|
      ensures BlankSepLen(s[j..]) == 0
    {
      assert s[j..] == p[j..] + ("\n\n" + rest);
      BlankSepLocal(p[j..], "\n\n" + rest);
    }
    assert s[|p|..] == "\n\n" + rest;
    BlankSepOfDoubleNewline(rest);
  }

  lemma {:induction false} BlankSepNone(p: string)
    requires SeparableBlock(p)
    ensures FirstMatch(p, BlankSepLen) == |p|
  {
  }

  /** Splitting `p + "\n\n" + tail` yields `p` and then the pieces of `tail`. */
  lemma {:induction false} SplitBlankStep(p: string, tail: string)
    requires |tail| == 0 || !IsSpace(tail[0])
    requires FirstMatch(p + "\n\n" + tail, BlankSepLen) == |p|
    ensures SplitBlank(p + "\n\n" + tail) == [p] + SplitBlank(tail)
  {
    BlankSepOfDoubleNewline(tail);
    MatcherBlankSep();
    SplitOnAfterSeparator(p, tail, BlankSepLen);
  }

  /** When the leftmost separator is a written `"\n\n"` after `p`, the split yields `p` first. */
  lemma {:induction false} SplitOnAfterSeparator(p: string, tail: string, f: string -> nat)
    requires Matcher(f)
    requires FirstMatch(p + "\n\n" + tail, f) == |p| && f("\n\n" + tail) == 2
    ensures SplitOn(p + "\n\n" + tail, f) == [p] + SplitOn(tail, f)
  {
    var s := p + "\n\n" + tail;
    assert s[|p|..] == "\n\n" + tail;
    assert s[|p| + 2..] == tail && s[..|p|] == p;
    SplitOnStep(s, f, |p|, 2);
  }

  lemma {:induction false} MatcherBlankSep()
    ensures Matcher(BlankSepLen)
  {
    forall t: string
      ensures BlankSepLen(t) <= |t|
    {
    }
  }

  /** One step of the split: the piece before the leftmost separator, then the rest. */
  lemma {:induction false} SplitOnStep(s: string, f: string -> nat, p: nat, n: nat)
    requires Matcher(f)
    requires p < |s| && FirstMatch(s, f) == p && f(s[p..]) == n
    ensures p + n <= |s|
    ensures SplitOn(s, f) == [s[..p]] + SplitOn(s[p + n..], f)
  {
    assert f(s[p..]) <= |s[p..]|;
  }

  /** Blocks joined by one empty line are split back into exactly those blocks. */
  lemma {:induction false} SplitBlankOfJoin(parts: seq<string>)
    requires |parts| >= 1
    requires forall k :: 0 <= k < |parts| ==> SeparableBlock(parts[k])
    ensures SplitBlank(Join(parts, "\n\n")) == parts
    decreases |parts|
  {
    if |parts| == 1 {
      BlankSepNone(parts[0]);
    } else {
      var tail := Join(parts[1..], "\n\n");
      assert Join(parts, "\n\n") == parts[0] + "\n\n" + tail;
      SplitBlankOfJoin(parts[1..]);
      JoinFirstChar(parts[1..]);
      FirstMatchAfterBlock(parts[0], tail);
      SplitBlankStep(parts[0], tail);
      assert [parts[0]] + parts[1..] == parts;
    }
  }

  lemma {:induction false} JoinFirstChar(parts: seq<string>)
    requires |parts| >= 1 && |parts[0]| > 0
    ensures |Join(parts, "\n\n")| > 0 && Join(parts, "\n\n")[0] == parts[0][0]
  {
  }

  /** The last character of a join is the last character of the last part. */
  lemma {:induction false} JoinLastChar(parts: seq<string>, sep: string)
    requires |parts| >= 1 && |parts[|parts| - 1]| > 0
    ensures var j := Join(parts, sep); |j| > 0 && j[|j| - 1] == parts[|parts| - 1][|parts[|parts| - 1]| - 1]
  {
    if |parts| > 1 {
      var h := parts[..|parts| - 1];
      assert parts == h + [parts[|parts| - 1]];
      JoinAppend(h, parts[|parts| - 1], sep);
    }
  }

  /** A block whose lines all hold a non-whitespace character, joined by single newlines,
      contains no blank-line separator. */
  lemma {:induction false} JoinedLinesBlankFree(lines: seq<string>)
    requires |lines| >= 1
    requires forall k :: 0 <= k < |lines| ==> |lines[k]| > 0 && !IsSpace(lines[k][0]) && !IsSpace(lines[k][|lines[k]| - 1])
    requires forall k :: 0 <= k < |lines| ==> !HasChar(lines[k], '\n')
    ensures SeparableBlock(Join(lines, "\n"))
    decreases |lines|
  {
    var s := Join(lines, "\n");
    if |lines| == 1 {
      forall j | 0 <= j < |s| ensures BlankSepLen(s[j..]) == 0 {
        assert s[j..][0] == s[j];
      }
    } else {
      var tail := Join(lines[1..], "\n");
      JoinedLinesBlankFree(lines[1..]);
      var l0 := lines[0];
      assert s == l0 + "\n" + tail;
      forall j | 0 <= j < |s| ensures BlankSepLen(s[j..]) == 0 {
        if j < |l0| {
          assert s[j..][0] == l0[j];
        } else if j == |l0| {
          var t := s[j..];
          assert t == "\n" + tail;
          assert t[1..] == tail;
          assert SpaceRun(tail) == 0;
          assert LastNewline(tail, 0) == -1;
        } else {
          assert s[j..] == tail[j - |l0| - 1..];
        }
      }
    }
  }

  // ---------------------------------------------------------------------------
  // Round trip of the newline-run separator
  // ---------------------------------------------------------------------------

  /** No two consecutive newlines inside `p`. */
  predicate NoDoubleNewline(p: string) {
    forall j :: 0 <= j < |p| - 1 ==> !(p[j] == '\n' && p[j + 1] == '\n')
  }

  predicate StartsWithNewline(p: string) {
    |p| > 0 && p[0] == '\n'
  }

  predicate EndsWithNewline(p: string) {
    |p| > 0 && p[|p| - 1] == '\n'
  }

  /**
   * Pieces as `re.split(r'\n{2,}', …)` leaves them: none holds two
   * consecutive newlines, none but the first starts with a newline, none but
   * the last ends with one, and none in the middle is empty.
   */
  predicate RunSeparated(parts: seq<string>) {
    forall k :: 0 <= k < |parts| ==>
      && NoDoubleNewline(parts[k])
      && (k > 0 ==> !StartsWithNewline(parts[k]))
      && (k < |parts| - 1 ==> !EndsWithNewline(parts[k]))
      && (0 < k < |parts| - 1 ==> |parts[k]| > 0)
  }

  /** A newline-run separator starts at the front of `t` exactly when `t` starts with two newlines. */
  lemma {:induction false} RunLenPositive(t: string)
    ensures NewlineRunLen(t) > 0 <==> |t| >= 2 && t[0] == '\n' && t[1] == '\n'
  {
    if |t| >= 2 && t[0] == '\n' && t[1] == '\n' {
      assert t[1..][0] == '\n';
      assert NewlineRun(t) == 1 + NewlineRun(t[1..]);
      assert NewlineRun(t[1..]) == 1 + NewlineRun(t[1..][1..]);
    }
  }

  lemma {:induction false} RunLenOfSeparator(rest: string)
    requires !StartsWithNewline(rest)
    ensures NewlineRunLen("\n\n" + rest) == 2
  {
    var t := "\n\n" + rest;
    assert t[1..] == "\n" + rest;
    assert t[1..][1..] == rest;
    assert NewlineRun(rest) == 0;
  }

  /** With no double newline in `p`, no separator starts inside `p`. */
  lemma {:induction false} RunFreeNone(p: string)
    requires NoDoubleNewline(p)
    ensures FirstMatch(p, NewlineRunLen) == |p|
  {
    var m := FirstMatch(p, NewlineRunLen);
    if m < |p| {
      NoRunInside(p, p, m);
      assert false;
    }
  }

  /** No separator starts at a position of `s` inside its prefix `p`. */
  lemma {:induction false} NoRunInside(s: string, p: string, j: nat)
    requires |p| <= |s| && s[..|p|] == p && j < |p|
    requires NoDoubleNewline(p) && (j == |p| - 1 ==> p[j] != '\n' || |p| == |s|)
    ensures NewlineRunLen(s[j..]) == 0
  {
    RunLenPositive(s[j..]);
    assert s[j..][0] == s[j] == p[j];
    if j + 1 < |p| {
      assert s[j..][1] == s[j + 1] == p[j + 1];
    }
  }

  /** The first separator in `p + "\n\n" + rest` is the written one. */
  lemma {:induction false} FirstRunAfterPiece(p: string, rest: string)
    requires NoDoubleNewline(p) && !EndsWithNewline(p) && !StartsWithNewline(rest)
    ensures FirstMatch(p + "\n\n" + rest, NewlineRunLen) == |p|
  {
    var s := p + "\n\n" + rest;
    assert s[|p|..] == "\n\n" + rest;
    assert s[..|p|] == p;
    RunLenOfSeparator(rest);
    forall j | 0 <= j < |p|
      ensures NewlineRunLen(s[j..]) == 0
    {
      NoRunInside(s, p, j);
    }
    FirstMatchAt(s, NewlineRunLen, |p|);
  }

  /** The first match is at `i` when the separator matches there and nowhere before. */
  lemma {:induction false} FirstMatchAt(s: string, f: string -> nat, i: nat)
    requires i < |s| && f(s[i..]) > 0
    requires forall j :: 0 <= j < i ==> f(s[j..]) == 0
    ensures FirstMatch(s, f) == i
  {
  }

  /** Splitting `p + "\n\n" + tail` yields `p` and then the pieces of `tail`. */
  lemma {:induction false} SplitRunsStep(p: string, tail: string)
    requires !StartsWithNewline(tail)
    requires FirstMatch(p + "\n\n" + tail, NewlineRunLen) == |p|
    ensures SplitNewlineRuns(p + "\n\n" + tail) == [p] + SplitNewlineRuns(tail)
  {
    RunLenOfSeparator(tail);
    MatcherNewlineRun();
    SplitOnAfterSeparator(p, tail, NewlineRunLen);
  }

  lemma {:induction false} MatcherNewlineRun()
    ensures Matcher(NewlineRunLen)
  {
    forall t: string
      ensures NewlineRunLen(t) <= |t|
    {
    }
  }

  /** Pieces joined by `"\n\n"` are split back by `re.split(r'\n{2,}', …)` into exactly those pieces. */
  lemma {:induction false} SplitRunsOfJoin(parts: seq<string>)
    requires |parts| >= 1 && RunSeparated(parts)
    ensures SplitNewlineRuns(Join(parts, "\n\n")) == parts
    decreases |parts|
  {
    if |parts| == 1 {
      RunFreeNone(parts[0]);
      MatcherNewlineRun();
    } else {
      RunSeparatedTail(parts);
      SplitRunsOfJoin(parts[1..]);
      SplitRunsOfJoinStep(parts);
    }
  }

  lemma {:induction false} RunSeparatedTail(parts: seq<string>)
    requires |parts| >= 1 && RunSeparated(parts)
    ensures RunSeparated(parts[1..])
  {
    forall k | 0 <= k < |parts| - 1
      ensures parts[1..][k] == parts[k + 1]
    {
    }
  }

  lemma {:induction false} SplitRunsOfJoinStep(parts: seq<string>)
    requires |parts| > 1 && RunSeparated(parts)
    requires SplitNewlineRuns(Join(parts[1..], "\n\n")) == parts[1..]
    ensures SplitNewlineRuns(Join(parts, "\n\n")) == parts
  {
    var tail := Join(parts[1..], "\n\n");
    assert Join(parts, "\n\n") == parts[0] + "\n\n" + tail;
    assert !StartsWithNewline(parts[1]) && NoDoubleNewline(parts[0]) && !EndsWithNewline(parts[0]);
    assert |parts| > 2 ==> |parts[1]| > 0;
    TailStart(parts[1..]);
    FirstRunAfterPiece(parts[0], tail);
    SplitRunsStep(parts[0], tail);
    assert [parts[0]] + parts[1..] == parts;
  }

  /** The joined pieces start as the first piece does, or are empty. */
  lemma {:induction false} TailStart(parts: seq<string>)
    requires |parts| >= 1 && !StartsWithNewline(parts[0])
    requires |parts| > 1 ==> |parts[0]| > 0
    ensures !StartsWithNewline(Join(parts, "\n\n"))
  {
    if |parts| > 1 {
      assert Join(parts, "\n\n")[0] == parts[0][0];
    }
  }

  /** The pieces of `re.split(r'\n{2,}', …)` are separated in the sense above. */
  lemma {:induction false} SplitRunsSeparated(s: string)
    ensures RunSeparated(SplitNewlineRuns(s))
    decreases |s|
  {
    var m := FirstMatch(s, NewlineRunLen);
    if m < |s| {
      var n := NewlineRunLen(s[m..]);
      MatcherNewlineRun();
      SplitRunsSeparated(s[m + n..]);
      SplitRunsSeparatedStep(s, m, n);
    } else {
      SplitRunsWhole(s);
    }
  }

  lemma {:induction false} SplitRunsWhole(s: string)
    requires FirstMatch(s, NewlineRunLen) == |s|
    ensures RunSeparated(SplitNewlineRuns(s))
  {
    PieceBeforeRun(s, |s|);
    assert s[..|s|] == s;
    assert SplitNewlineRuns(s) == [s];
  }

  lemma {:induction false} SplitRunsSeparatedStep(s: string, m: nat, n: nat)
    requires m < |s| && m == FirstMatch(s, NewlineRunLen) && n == NewlineRunLen(s[m..])
    requires RunSeparated(SplitNewlineRuns(s[m + n..]))
    ensures RunSeparated(SplitNewlineRuns(s))
  {
    MatcherNewlineRun();
    PieceBeforeRun(s, m);
    SplitOnStep(s, NewlineRunLen, m, n);
    AfterRun(s, m, n);
    SplitRunsHead(s[m + n..]);
    RunSeparatedCons(s[..m], SplitNewlineRuns(s[m + n..]));
  }

  /** What follows a maximal newline run does not start with a newline. */
  lemma {:induction false} AfterRun(s: string, m: nat, n: nat)
    requires m < |s| && n == NewlineRunLen(s[m..]) && n > 0 && m + n <= |s|
    ensures !StartsWithNewline(s[m + n..])
  {
    var t := s[m..];
    if m + n < |s| {
      assert t[n] != '\n';
      assert s[m + n..][0] == t[n];
    }
  }

  /** The piece before the leftmost separator holds no double newline and does not end in one. */
  lemma {:induction false} PieceBeforeRun(s: string, m: nat)
    requires m == FirstMatch(s, NewlineRunLen)
    ensures NoDoubleNewline(s[..m])
    ensures m < |s| ==> !EndsWithNewline(s[..m])
  {
    var p := s[..m];
    forall j | 0 <= j < |p| - 1
      ensures !(p[j] == '\n' && p[j + 1] == '\n')
    {
      RunLenPositive(s[j..]);
      assert s[j..][0] == p[j] && s[j..][1] == p[j + 1];
    }
    if m < |s| && m > 0 {
      RunLenPositive(s[m..]);
      RunLenPositive(s[m - 1..]);
      assert s[m - 1..][1] == s[m..][0];
      assert s[m - 1..][0] == p[m - 1];
    }
  }

  /** The first piece of a string that does not start with a newline does not either, and is
      empty only when it is the only piece. */
  lemma {:induction false} SplitRunsHead(t: string)
    requires !StartsWithNewline(t)
    ensures var r := SplitNewlineRuns(t);
      !StartsWithNewline(r[0]) && (|r| > 1 ==> |r[0]| > 0)
  {
    MatcherNewlineRun();
    var m := FirstMatch(t, NewlineRunLen);
    if m < |t| {
      var n := NewlineRunLen(t[m..]);
      SplitOnStep(t, NewlineRunLen, m, n);
      RunLenPositive(t[m..]);
      if m > 0 {
        assert t[..m][0] == t[0];
      }
    } else {
      assert SplitNewlineRuns(t) == [t];
    }
  }

  lemma {:induction false} RunSeparatedCons(p: string, rest: seq<string>)
    requires |rest| >= 1 && RunSeparated(rest)
    requires NoDoubleNewline(p) && !EndsWithNewline(p)
    requires !StartsWithNewline(rest[0]) && (|rest| > 1 ==> |rest[0]| > 0)
    ensures RunSeparated([p] + rest)
  {
    var parts := [p] + rest;
    forall k | 1 <= k < |parts|
      ensures parts[k] == rest[k - 1]
    {
    }
  }
  // ---------------------------------------------------------------------------
  // Round trip of the literal double newline
  // ---------------------------------------------------------------------------

  /** No `"\n\n"` inside `p`, and `p` does not end in a newline. */
  predicate DoubleFree(p: string) {
    (forall j :: 0 <= j < |p| - 1 ==> !(p[j] == '\n' && p[j + 1] == '\n'))
    && (|p| == 0 || p[|p| - 1] != '\n')
  }

  lemma {:induction false} MatcherDoubleNewline()
    ensures Matcher(DoubleNewlineLen)
  {
    forall t: string
      ensures DoubleNewlineLen(t) <= |t|
    {
    }
  }

  /** No separator starts inside a double-free piece, whatever follows it. */
  lemma {:induction false} DoubleFreeNoMatch(p: string, rest: string, j: nat)
    requires DoubleFree(p) && j < |p|
    ensures DoubleNewlineLen((p + rest)[j..]) == 0
  {
    var t := (p + rest)[j..];
    assert t[0] == p[j];
    if j < |p| - 1 {
      assert t[1] == p[j + 1];
    }
  }

  lemma {:induction false} DoubleNone(p: string)
    requires DoubleFree(p)
    ensures FirstMatch(p, DoubleNewlineLen) == |p|
  {
    forall j | 0 <= j < |p|
      ensures DoubleNewlineLen(p[j..]) == 0
    {
      DoubleFreeNoMatch(p, "", j);
      assert p + "" == p;
    }
    FirstMatchNone(p, DoubleNewlineLen);
  }

  /** With no match anywhere, the first match is at the end. */
  lemma {:induction false} FirstMatchNone(s: string, f: string -> nat)
    requires forall j :: 0 <= j < |s| ==> f(s[j..]) == 0
    ensures FirstMatch(s, f) == |s|
  {
  }

  lemma {:induction false} DoubleStep(p: string, tail: string)
    requires DoubleFree(p)
    ensures SplitDoubleNewline(p + "\n\n" + tail) == [p] + SplitDoubleNewline(tail)
  {
    var s := p + "\n\n" + tail;
    forall j | 0 <= j < |p|
      ensures DoubleNewlineLen(s[j..]) == 0
    {
      assert s == p + ("\n\n" + tail);
      DoubleFreeNoMatch(p, "\n\n" + tail, j);
    }
    assert s[|p|..] == "\n\n" + tail;
    FirstMatchAt(s, DoubleNewlineLen, |p|);
    MatcherDoubleNewline();
    SplitOnAfterSeparator(p, tail, DoubleNewlineLen);
  }

  /** Pieces joined by `"\n\n"` are split back by `split('\n\n')` into exactly those pieces. */
  lemma {:induction false} SplitDoubleOfJoin(parts: seq<string>)
    requires |parts| >= 1
    requires forall k :: 0 <= k < |parts| ==> DoubleFree(parts[k])
    ensures SplitDoubleNewline(Join(parts, "\n\n")) == parts
    decreases |parts|
  {
    if |parts| == 1 {
      DoubleNone(parts[0]);
      MatcherDoubleNewline();
    } else {
      var tail := Join(parts[1..], "\n\n");
      assert Join(parts, "\n\n") == parts[0] + "\n\n" + tail;
      SplitDoubleOfJoin(parts[1..]);
      DoubleStep(parts[0], tail);
      assert [parts[0]] + parts[1..] == parts;
    }
  }
}
