/**
 * Character classes and the string primitives of Python's `str` that the
 * subtitle pipeline relies on: strip, split on one character, join, search,
 * whitespace tokenising and whitespace-insensitive comparison.
 *
 * The regular-expression classes `\s`, `\d`, `\w` are replaced by explicit
 * predicates.  `IsSpace` is exactly the set of characters `str.isspace()`
 * accepts; digits are the ASCII digits; letters are approximated by the ASCII
 * letters, `ª µ º` and the whole range U+00C0..U+1EF9 but for `× ÷` and
 * U+1680.  That range covers precomposed Vietnamese, but it also holds the
 * combining marks U+0300..U+036F and a few punctuation signs (U+037E, U+060C,
 * U+061F, U+06D4) that Python does not count as letters, and it leaves out
 * every letter above U+1EF9, CJK included.
 */
module Text {

  // ---------------------------------------------------------------------------
  // Character classes
  // ---------------------------------------------------------------------------

  /** Python's `str.isspace()` (also the regex class `\s` on `str` patterns). */
  predicate IsSpace(c: char) {
    c == ' ' || ('\t' <= c <= '\r') || ('\U{1C}' <= c <= '\U{1F}')
    || c == '\U{85}' || c == '\U{A0}' || c == '\U{1680}'
    || ('\U{2000}' <= c <= '\U{200A}') || c == '\U{2028}' || c == '\U{2029}'
    || c == '\U{202F}' || c == '\U{205F}' || c == '\U{3000}'
  }

  /** The regex class `\d`, restricted to ASCII digits. */
  predicate IsDigit(c: char) {
    '0' <= c <= '9'
  }

  /** A letter: the regex class `[^\W\d_]`, approximated as described above. */
  predicate IsLetter(c: char) {
    ('a' <= c <= 'z') || ('A' <= c <= 'Z')
    || c == '\U{AA}' || c == '\U{B5}' || c == '\U{BA}'
    || ('\U{C0}' <= c <= '\U{1EF9}' && c != '\U{D7}' && c != '\U{F7}' && c != '\U{1680}')
  }

  /** The regex class `\w`: letters, digits and the underscore. */
  predicate IsWordChar(c: char) {
    IsLetter(c) || IsDigit(c) || c == '_'
  }

  /** Python's `str.isalnum()` on one character. */
  predicate IsAlnum(c: char) {
    IsLetter(c) || IsDigit(c)
  }

  /** The terminal punctuation `. , ? !` every resegmentation pass breaks on. */
  predicate IsBreakMark(c: char) {
    c == '.' || c == ',' || c == '?' || c == '!'
  }

  predicate AllSpace(s: string) {
    forall i :: 0 <= i < |s| ==> IsSpace(s[i])
  }

  predicate NoSpace(s: string) {
    forall i :: 0 <= i < |s| ==> !IsSpace(s[i])
  }

  /** Python's `s.isdigit()`: non-empty and made of digits. */
  predicate IsDigits(s: string) {
    |s| > 0 && forall i :: 0 <= i < |s| ==> IsDigit(s[i])
  }

  predicate HasChar(s: string, c: char) {
    exists i :: 0 <= i < |s| && s[i] == c
  }

  /** A character occurs in a concatenation iff it occurs in one of the parts. */
  lemma {:induction false} HasCharAppend(a: string, b: string, c: char)
    ensures HasChar(a + b, c) <==> HasChar(a, c) || HasChar(b, c)
  {
    if HasChar(a + b, c) {
      var i :| 0 <= i < |a + b| && (a + b)[i] == c;
      if i >= |a| {
        assert b[i - |a|] == c;
      }
    }
    if HasChar(b, c) {
      var i :| 0 <= i < |b| && b[i] == c;
      assert (a + b)[|a| + i] == c;
    }
    if HasChar(a, c) {
      var i :| 0 <= i < |a| && a[i] == c;
      assert (a + b)[i] == c;
    }
  }

  // ---------------------------------------------------------------------------
  // Prefixes, suffixes, search
  // ---------------------------------------------------------------------------

  predicate StartsWith(s: string, p: string) {
    |p| <= |s| && s[..|p|] == p
  }

  predicate EndsWith(s: string, p: string) {
    |p| <= |s| && s[|s| - |p|..] == p
  }

  /** Appending keeps a prefix. */
  lemma StartsWithAppend(s: string, t: string, p: string)
    requires StartsWith(s, p)
    ensures StartsWith(s + t, p)
  {
    assert (s + t)[..|p|] == s[..|p|];
  }

  /** A concatenation ends with its last part. */
  lemma EndsWithAppend(s: string, p: string)
    ensures EndsWith(s + p, p)
  {
    assert (s + p)[|s|..] == p;
  }

  /** Python's `t in s` for strings. */
  predicate Contains(s: string, t: string)
    decreases |s|
  {
    StartsWith(s, t) || (|s| > 0 && Contains(s[1..], t))
  }

  /** Python's `s.find(t)`: the leftmost position of `t` in `s`, or -1. */
  function Find(s: string, t: string): (r: int)
    ensures -1 <= r
    ensures r >= 0 ==> r + |t| <= |s| && s[r..r + |t|] == t
    ensures r >= 0 ==> forall j :: 0 <= j < r ==> !StartsWith(s[j..], t)
    ensures r == -1 <==> !Contains(s, t)
    decreases |s|
  {
    if StartsWith(s, t) then 0
    else if |s| == 0 then -1
    else
      var k := Find(s[1..], t);
      assert forall j :: 1 <= j <= |s| ==> s[1..][j - 1..] == s[j..];
      if k == -1 then -1 else k + 1
  }

  /** Index of the first occurrence of character `c`, or `|s|` when absent. */
  function IndexOfChar(s: string, c: char): (r: nat)
    ensures r <= |s|
    ensures r < |s| ==> s[r] == c
    ensures forall j :: 0 <= j < r ==> s[j] != c
    decreases |s|
  {
    if |s| == 0 then 0 else if s[0] == c then 0 else 1 + IndexOfChar(s[1..], c)
  }

  /** An occurrence at `i` is an occurrence. */
  lemma {:induction false} ContainsAt(s: string, t: string, i: nat)
    requires i <= |s| && StartsWith(s[i..], t)
    ensures Contains(s, t)
    decreases i
  {
    if i > 0 {
      assert s[1..][i - 1..] == s[i..];
      ContainsAt(s[1..], t, i - 1);
    }
  }

  /** An occurrence has a position. */
  lemma {:induction false} ContainsIndex(s: string, t: string) returns (i: nat)
    requires Contains(s, t)
    ensures i + |t| <= |s| && s[i..i + |t|] == t
    decreases |s|
  {
    if StartsWith(s, t) {
      i := 0;
    } else {
      var j := ContainsIndex(s[1..], t);
      assert s[1..][j..j + |t|] == s[j + 1..j + 1 + |t|];
      i := j + 1;
    }
  }

  /** `s.split(c)[0]`. */
  function FirstPiece(s: string, c: char): (r: string)
    ensures !HasChar(r, c)
  {
    s[..IndexOfChar(s, c)]
  }

  /** The first `c`-piece of `s` is a prefix of `s` that stops at `c` or at the end. */
  lemma FirstPieceSpec(s: string, c: char)
    ensures var r := FirstPiece(s, c);
            |r| <= |s| && s[..|r|] == r && (|r| < |s| ==> s[|r|] == c)
  {
  }

  // ---------------------------------------------------------------------------
  // Whitespace stripping
  // ---------------------------------------------------------------------------

  /** Python's `s.lstrip()`. */
  function LStrip(s: string): (r: string)
    ensures |r| <= |s| && r == s[|s| - |r|..]
    ensures AllSpace(s[..|s| - |r|])
    ensures |r| > 0 ==> !IsSpace(r[0])
    decreases |s|
  {
    if |s| > 0 && IsSpace(s[0]) then LStrip(s[1..]) else s
  }

  /** Python's `s.rstrip()`. */
  function RStrip(s: string): (r: string)
    ensures |r| <= |s| && r == s[..|r|]
    ensures AllSpace(s[|r|..])
    ensures |r| > 0 ==> !IsSpace(r[|r| - 1])
    decreases |s|
  {
    if |s| > 0 && IsSpace(s[|s| - 1]) then
      var r := RStrip(s[..|s| - 1]);
      assert forall i :: |r| <= i < |s| - 1 ==> s[i] == s[..|s| - 1][i];
      r
    else s
  }

  /** Python's `s.strip()`. */
  function Strip(s: string): (r: string)
    ensures |r| > 0 ==> !IsSpace(r[0]) && !IsSpace(r[|r| - 1])
  {
    RStrip(LStrip(s))
  }

  /** Python's `not s.strip()`: the string is empty or all whitespace. */
  predicate IsBlank(s: string) {
    Strip(s) == ""
  }

  lemma {:induction false} BlankIffAllSpace(s: string)
    ensures IsBlank(s) <==> AllSpace(s)
  {
    var l := LStrip(s);
    if AllSpace(s) {
      LStripAllSpace(s);
    }
    if IsBlank(s) {
      assert l[0..] == l;
      assert s == s[..|s| - |l|] + l;
    }
  }

  lemma {:induction false} LStripAllSpace(s: string)
    requires AllSpace(s)
    ensures LStrip(s) == ""
    decreases |s|
  {
    if |s| > 0 { LStripAllSpace(s[1..]); }
  }

  lemma {:induction false} LStripNoLeadingSpace(s: string)
    requires |s| == 0 || !IsSpace(s[0])
    ensures LStrip(s) == s
  {
  }

  lemma {:induction false} RStripNoTrailingSpace(s: string)
    requires |s| == 0 || !IsSpace(s[|s| - 1])
    ensures RStrip(s) == s
  {
  }

  /** Stripping a text that ends in a non-space character keeps that last character. */
  lemma {:induction false} StripKeepsLast(s: string)
    requires |s| > 0 && !IsSpace(s[|s| - 1])
    ensures |Strip(s)| > 0 && Strip(s)[|Strip(s)| - 1] == s[|s| - 1]
  {
    var l := LStrip(s);
    assert l[|l| - 1] == s[|s| - 1];
    RStripNoTrailingSpace(l);
  }

  lemma {:induction false} StripOfStripped(s: string)
    requires |s| == 0 || (!IsSpace(s[0]) && !IsSpace(s[|s| - 1]))
    ensures Strip(s) == s
  {
  }

  lemma {:induction false} StripIdempotent(s: string)
    ensures Strip(Strip(s)) == Strip(s)
  {
    StripOfStripped(Strip(s));
  }

  /** `s.strip()` is `s` less a whitespace prefix and a whitespace suffix. */
  lemma {:induction false} StripSplit(s: string) returns (x: string, z: string)
    ensures s == x + Strip(s) + z && AllSpace(x) && AllSpace(z)
  {
    var l := LStrip(s);
    var r := RStrip(l);
    x := s[..|s| - |l|];
    z := l[|r|..];
    TakeDrop(s, |s| - |l|);
    TakeDrop(l, |r|);
    Regroup(s, x, l, r, z);
  }

  lemma {:induction false} TakeDrop(s: string, i: nat)
    requires i <= |s|
    ensures s == s[..i] + s[i..]
  {
  }

  lemma {:induction false} Regroup(s: string, x: string, l: string, r: string, z: string)
    requires s == x + l && l == r + z
    ensures s == x + r + z
  {
  }

  // ---------------------------------------------------------------------------
  // Split and join on a separator
  // ---------------------------------------------------------------------------

  /** `sep.join(parts)`. */
  function Join(parts: seq<string>, sep: string): string
    decreases |parts|
  {
    if |parts| == 0 then ""
    else if |parts| == 1 then parts[0]
    else parts[0] + sep + Join(parts[1..], sep)
  }

  /** A join opens with its first part. */
  lemma {:induction false} JoinHead(parts: seq<string>, sep: string)
    requires |parts| > 0
    ensures |Join(parts, sep)| >= |parts[0]|
  {
  }

  /** Concatenation of all parts, `''.join(parts)`. */
  function Concat(parts: seq<string>): string
    decreases |parts|
  {
    if |parts| == 0 then "" else parts[0] + Concat(parts[1..])
  }

  /** Python's `s.split(c)` for a single-character separator. */
  function Split(s: string, c: char): (r: seq<string>)
    ensures |r| >= 1
    ensures forall k :: 0 <= k < |r| ==> !HasChar(r[k], c)
    ensures Join(r, [c]) == s
    decreases |s|
  {
    var i := IndexOfChar(s, c);
    if i == |s| then [s]
    else
      var rest := Split(s[i + 1..], c);
      assert s == s[..i] + [c] + s[i + 1..];
      [s[..i]] + rest
  }

  lemma {:induction false} SplitOfJoin(parts: seq<string>, c: char)
    requires |parts| >= 1
    requires forall k :: 0 <= k < |parts| ==> !HasChar(parts[k], c)
    ensures Split(Join(parts, [c]), c) == parts
    decreases |parts|
  {
    var s := Join(parts, [c]);
    if |parts| == 1 {
      assert s == parts[0];
    } else {
      var tail := Join(parts[1..], [c]);
      assert s == parts[0] + [c] + tail;
      var i := IndexOfChar(s, c);
      assert s[|parts[0]|] == c;
      assert forall j :: 0 <= j < |parts[0]| ==> s[j] == parts[0][j];
      assert i == |parts[0]|;
      assert s[..i] == parts[0];
      assert s[i + 1..] == tail;
      SplitOfJoin(parts[1..], c);
      assert Split(s, c) == [parts[0]] + parts[1..];
    }
  }

  /** A string with no separator splits into itself alone. */
  lemma {:induction false} SplitNoSep(s: string, c: char)
    requires !HasChar(s, c)
    ensures Split(s, c) == [s]
  {
    SplitOfJoin([s], c);
  }

  lemma {:induction false} JoinAppend(parts: seq<string>, last: string, sep: string)
    requires |parts| >= 1
    ensures Join(parts + [last], sep) == Join(parts, sep) + sep + last
    decreases |parts|
  {
    if |parts| == 1 {
      assert parts + [last] == [parts[0], last];
    } else {
      assert (parts + [last])[1..] == parts[1..] + [last];
      JoinAppend(parts[1..], last, sep);
    }
  }

  lemma {:induction false} ConcatAppend(parts: seq<string>, last: string)
    ensures Concat(parts + [last]) == Concat(parts) + last
    decreases |parts|
  {
    if |parts| == 0 {
      assert parts + [last] == [last];
    } else {
      assert (parts + [last])[1..] == parts[1..] + [last];
      ConcatAppend(parts[1..], last);
    }
  }

  lemma {:induction false} ConcatSplit(a: seq<string>, b: seq<string>)
    ensures Concat(a + b) == Concat(a) + Concat(b)
    decreases |a|
  {
    if |a| == 0 {
      assert a + b == b;
    } else {
      assert (a + b)[1..] == a[1..] + b;
      ConcatSplit(a[1..], b);
    }
  }

  // ---------------------------------------------------------------------------
  // Whitespace-insensitive content
  // ---------------------------------------------------------------------------

  /** The characters of `s` with every whitespace character removed. */
  function Squash(s: string): (r: string)
    ensures NoSpace(r)
    ensures |r| <= |s|
    decreases |s|
  {
    if |s| == 0 then "" else if IsSpace(s[0]) then Squash(s[1..]) else [s[0]] + Squash(s[1..])
  }

  lemma {:induction false} SquashAppend(a: string, b: string)
    ensures Squash(a + b) == Squash(a) + Squash(b)
    decreases |a|
  {
    if |a| == 0 {
      assert a + b == b;
    } else {
      assert (a + b)[1..] == a[1..] + b;
      SquashAppend(a[1..], b);
    }
  }

  lemma {:induction false} SquashAllSpace(s: string)
    requires AllSpace(s)
    ensures Squash(s) == ""
    decreases |s|
  {
    if |s| > 0 { SquashAllSpace(s[1..]); }
  }

  lemma {:induction false} SquashLStrip(s: string)
    ensures Squash(LStrip(s)) == Squash(s)
  {
    var l := LStrip(s);
    var pre := s[..|s| - |l|];
    assert s == pre + l;
    SquashAppend(pre, l);
    SquashAllSpace(pre);
  }

  lemma {:induction false} SquashRStrip(s: string)
    ensures Squash(RStrip(s)) == Squash(s)
  {
    var r := RStrip(s);
    var post := s[|r|..];
    assert s == r + post;
    SquashAppend(r, post);
    SquashAllSpace(post);
  }

  /** Stripping removes whitespace only. */
  lemma {:induction false} SquashStrip(s: string)
    ensures Squash(Strip(s)) == Squash(s)
  {
    SquashLStrip(s);
    SquashRStrip(LStrip(s));
  }

  lemma {:induction false} SquashSpaceJoin(a: string, b: string)
    ensures Squash(a + " " + b) == Squash(a) + Squash(b)
  {
    SquashAppend(a + " ", b);
    SquashAppend(a, " ");
    assert Squash(" ") == "" by { assert IsSpace(' '); }
  }

  /** The squashed content of a sequence of strings, concatenated in order. */
  function SquashAll(parts: seq<string>): string
    decreases |parts|
  {
    if |parts| == 0 then "" else Squash(parts[0]) + SquashAll(parts[1..])
  }

  lemma {:induction false} SquashAllAppend(a: seq<string>, b: seq<string>)
    ensures SquashAll(a + b) == SquashAll(a) + SquashAll(b)
    decreases |a|
  {
    if |a| > 0 {
      assert (a + b)[1..] == a[1..] + b;
      SquashAllAppend(a[1..], b);
    } else {
      assert a + b == b;
    }
  }

  /** Joining with single spaces adds only whitespace. */
  lemma {:induction false} SquashJoinSpace(parts: seq<string>)
    ensures Squash(Join(parts, " ")) == SquashAll(parts)
    decreases |parts|
  {
    if |parts| == 1 {
      assert SquashAll(parts[1..]) == "";
    } else if |parts| > 1 {
      SquashJoinSpace(parts[1..]);
      SquashSpaceJoin(parts[0], Join(parts[1..], " "));
    }
  }

  /** Whitespace-free tokens squash to their plain concatenation. */
  lemma {:induction false} SquashAllTokens(parts: seq<string>)
    requires Tokens(parts)
    ensures SquashAll(parts) == Concat(parts)
    decreases |parts|
  {
    if |parts| > 0 {
      NoSpaceSquash(parts[0]);
      assert Tokens(parts[1..]) by {
        assert forall k :: 0 <= k < |parts| - 1 ==> parts[1..][k] == parts[k + 1];
      }
      SquashAllTokens(parts[1..]);
    }
  }

  lemma {:induction false} Assoc(a: string, b: string, c: string)
    ensures a + (b + c) == (a + b) + c
  {
  }

  /**
   * Rewriting two neighbouring parts so that together they squash to the same
   * text leaves the squashed whole unchanged.
   */
  lemma {:induction false} SquashAllPair(xs: seq<string>, ys: seq<string>, j: nat)
    requires |xs| == |ys| && j + 1 < |xs|
    requires forall k :: 0 <= k < |xs| && k != j && k != j + 1 ==> xs[k] == ys[k]
    requires Squash(xs[j]) + Squash(xs[j + 1]) == Squash(ys[j]) + Squash(ys[j + 1])
    ensures SquashAll(xs) == SquashAll(ys)
    decreases j
  {
    if j == 0 {
      assert xs[2..] == ys[2..];
      assert xs[1..][1..] == xs[2..] && ys[1..][1..] == ys[2..];
      var rest := SquashAll(xs[2..]);
      assert SquashAll(xs) == Squash(xs[0]) + (Squash(xs[1]) + rest);
      assert SquashAll(ys) == Squash(ys[0]) + (Squash(ys[1]) + rest);
      Assoc(Squash(xs[0]), Squash(xs[1]), rest);
      Assoc(Squash(ys[0]), Squash(ys[1]), rest);
    } else {
      assert xs[0] == ys[0];
      SquashAllPair(xs[1..], ys[1..], j - 1);
    }
  }

  // ---------------------------------------------------------------------------
  // Whitespace tokens and word runs
  // ---------------------------------------------------------------------------

  /** Length of the maximal run of whitespace starting at the front of `s`. */
  function SpaceRun(s: string): (k: nat)
    ensures k <= |s|
    ensures AllSpace(s[..k])
    ensures k < |s| ==> !IsSpace(s[k])
    decreases |s|
  {
    if |s| > 0 && IsSpace(s[0]) then 1 + SpaceRun(s[1..]) else 0
  }

  /** A whitespace run followed by a non-space character is exactly the leading run. */
  lemma {:induction false} SpaceRunOf(run: string, rest: string)
    requires AllSpace(run) && (|rest| == 0 || !IsSpace(rest[0]))
    ensures SpaceRun(run + rest) == |run|
    decreases |run|
  {
    if |run| == 0 {
      assert run + rest == rest;
    } else {
      assert (run + rest)[1..] == run[1..] + rest;
      SpaceRunOf(run[1..], rest);
    }
  }

  /** Length of the maximal run of non-whitespace starting at the front of `s`. */
  function TokenRun(s: string): (k: nat)
    ensures k <= |s|
    ensures NoSpace(s[..k])
    ensures k < |s| ==> IsSpace(s[k])
    decreases |s|
  {
    if |s| > 0 && !IsSpace(s[0]) then 1 + TokenRun(s[1..]) else 0
  }

  /** Python's `s.split()` with no argument: the maximal non-whitespace runs. */
  function SplitWs(s: string): seq<string>
    decreases |s|
  {
    var t := LStrip(s);
    if |t| == 0 then []
    else
      var k := TokenRun(t);
      var rest := SplitWs(t[k..]);
      [t[..k]] + rest
  }

  /** One step of `s.split()`: the first token, then the tokens of the rest. */
  lemma {:induction false} SplitWsStep(s: string, t: string, n: nat)
    requires t == LStrip(s) && |t| > 0 && n == TokenRun(t)
    ensures SplitWs(s) == [t[..n]] + SplitWs(t[n..])
  {
  }

  /** Non-empty runs of non-whitespace characters. */
  predicate Tokens(r: seq<string>) {
    forall k :: 0 <= k < |r| ==> |r[k]| > 0 && NoSpace(r[k])
  }

  lemma {:induction false} TokensCons(x: string, r: seq<string>)
    requires |x| > 0 && NoSpace(x) && Tokens(r)
    ensures Tokens([x] + r)
  {
    assert forall k :: 1 <= k < |r| + 1 ==> ([x] + r)[k] == r[k - 1];
  }

  /** Every token of `s.split()` is a non-empty run of non-whitespace characters. */
  lemma {:induction false} SplitWsTokens(s: string)
    ensures Tokens(SplitWs(s))
    decreases |s|
  {
    var t := LStrip(s);
    if |t| > 0 {
      var k := TokenRun(t);
      SplitWsTokens(t[k..]);
      TokensCons(t[..k], SplitWs(t[k..]));
    }
  }

  lemma {:induction false} SquashSplitWs(s: string)
    ensures Concat(SplitWs(s)) == Squash(s)
    decreases |s|
  {
    var t := LStrip(s);
    SquashLStrip(s);
    if |t| > 0 {
      var k := TokenRun(t);
      var rest := t[k..];
      ConcatCons(t[..k], SplitWs(rest));
      SquashTokenRest(t, k);
      SquashSplitWs(rest);
    }
  }

  lemma {:induction false} ConcatCons(head: string, tail: seq<string>)
    ensures Concat([head] + tail) == head + Concat(tail)
  {
    assert ([head] + tail)[1..] == tail;
  }

  /** A token followed by the rest squashes to the token then the squashed rest. */
  lemma {:induction false} SquashTokenRest(t: string, k: nat)
    requires k <= |t| && NoSpace(t[..k])
    ensures Squash(t) == t[..k] + Squash(t[k..])
  {
    assert t == t[..k] + t[k..];
    SquashAppend(t[..k], t[k..]);
    NoSpaceSquash(t[..k]);
  }

  lemma {:induction false} NoSpaceSquash(s: string)
    requires NoSpace(s)
    ensures Squash(s) == s
    decreases |s|
  {
    if |s| > 0 { NoSpaceSquash(s[1..]); }
  }

  /** Number of maximal runs of `\w` characters (`len(re.findall(r'\w+', s))`);
      `inWord` says whether the character before `s` was a word character. */
  function WordRuns(s: string, inWord: bool): nat
    decreases |s|
  {
    if |s| == 0 then 0
    else (if IsWordChar(s[0]) && !inWord then 1 else 0) + WordRuns(s[1..], IsWordChar(s[0]))
  }

  /** `len(re.findall(r'\w+', s))`, which equals `len(re.findall(r'\b\w+\b', s))`. */
  function CountWords(s: string): nat {
    WordRuns(s, false)
  }

  lemma {:induction false} WordRunsAppend(a: string, b: string, inWord: bool)
    ensures WordRuns(a + b, inWord)
         == WordRuns(a, inWord) + WordRuns(b, if |a| == 0 then inWord else IsWordChar(a[|a| - 1]))
    decreases |a|
  {
    if |a| == 0 {
      assert a + b == b;
    } else {
      assert (a + b)[0] == a[0];
      assert (a + b)[1..] == a[1..] + b;
      WordRunsAppend(a[1..], b, IsWordChar(a[0]));
      if |a| > 1 {
        assert a[1..][|a[1..]| - 1] == a[|a| - 1];
      }
    }
  }

  /** Word counts add up when texts are joined with one space. */
  lemma {:induction false} CountWordsSpaceJoin(a: string, b: string)
    ensures CountWords(a + " " + b) == CountWords(a) + CountWords(b)
  {
    assert a + " " + b == a + (" " + b);
    WordRunsAppend(a, " " + b, false);
    var flag := if |a| == 0 then false else IsWordChar(a[|a| - 1]);
    assert (" " + b)[0] == ' ' && !IsWordChar(' ');
    assert (" " + b)[1..] == b;
    assert WordRuns(" " + b, flag) == WordRuns(b, false);
  }

  /** Python's `re.sub(r'\s+', ' ', s)`: every maximal whitespace run becomes one space. */
  function CollapseSpace(s: string): (r: string)
    ensures forall i :: 0 <= i < |r| && IsSpace(r[i]) ==> r[i] == ' '
    ensures forall i :: 0 <= i < |r| - 1 ==> !(IsSpace(r[i]) && IsSpace(r[i + 1]))
    ensures |s| > 0 && IsSpace(s[0]) <==> |r| > 0 && IsSpace(r[0])
    ensures |s| > 0 && IsSpace(s[|s| - 1]) <==> |r| > 0 && IsSpace(r[|r| - 1])
    decreases |s|
  {
    if |s| == 0 then ""
    else if IsSpace(s[0]) then
      var k := SpaceRun(s);
      var rest := CollapseSpace(s[k..]);
      assert k == |s| || !IsSpace(s[k..][0]);
      " " + rest
    else
      [s[0]] + CollapseSpace(s[1..])
  }

  /** Python's `s.replace(pat, rep)` for a non-empty `pat`. */
  function ReplaceAll(s: string, pat: string, rep: string): string
    requires |pat| > 0
    decreases |s|
  {
    if |s| == 0 then ""
    else if StartsWith(s, pat) then rep + ReplaceAll(s[|pat|..], pat, rep)
    else [s[0]] + ReplaceAll(s[1..], pat, rep)
  }

  lemma {:induction false} ReplaceAllAbsent(s: string, pat: string, rep: string)
    requires |pat| > 0
    requires !Contains(s, pat)
    ensures ReplaceAll(s, pat, rep) == s
    decreases |s|
  {
    if |s| > 0 { ReplaceAllAbsent(s[1..], pat, rep); }
  }

  /** No proper suffix of `pat` is also a prefix of it: two occurrences can never overlap. */
  predicate NoBorder(pat: string) {
    forall m :: 0 < m < |pat| ==> pat[m..] != pat[..|pat| - m]
  }

  /** A pattern whose first character occurs nowhere else in it has no border. */
  lemma UniqueHeadNoBorder(pat: string)
    requires |pat| > 0 && forall j :: 1 <= j < |pat| ==> pat[j] != pat[0]
    ensures NoBorder(pat)
  {
    forall m | 0 < m < |pat| ensures pat[m..] != pat[..|pat| - m] {
      assert pat[m..][0] != pat[..|pat| - m][0];
    }
  }

  /** An occurrence of `pat` that starts inside a shorter `base` and runs into `pat` is a border of `pat`. */
  lemma OverlapBorder(base: string, pat: string)
    requires |base| < |pat|
    ensures StartsWith(base + pat, pat) ==> pat[|base|..] == pat[..|pat| - |base|]
  {
    var s := base + pat;
    var m := |base|;
    assert s[..|pat|][m..] == pat[..|pat| - m];
  }

  /** Replacing a pattern replaces exactly the one occurrence at the end of `base + pat`. */
  lemma {:induction false} ReplaceTail(base: string, pat: string, rep: string)
    requires |pat| > 0 && !Contains(base, pat) && NoBorder(pat)
    ensures ReplaceAll(base + pat, pat, rep) == base + rep
    decreases |base|
  {
    var s := base + pat;
    if |base| == 0 {
      assert s == pat && s[|pat|..] == "";
    } else {
      assert !StartsWith(s, pat) by {
        if |base| >= |pat| {
          assert s[..|pat|] == base[..|pat|];
        } else {
          OverlapBorder(base, pat);
        }
      }
      assert s[1..] == base[1..] + pat;
      ReplaceTail(base[1..], pat, rep);
      assert [base[0]] + (base[1..] + rep) == base + rep;
    }
  }

  /** Python's `s.replace(c, '')` for one character. */
  function RemoveChar(s: string, c: char): (r: string)
    ensures !HasChar(r, c)
    decreases |s|
  {
    if |s| == 0 then "" else if s[0] == c then RemoveChar(s[1..], c) else [s[0]] + RemoveChar(s[1..], c)
  }

  lemma {:induction false} RemoveCharAppend(a: string, b: string, c: char)
    ensures RemoveChar(a + b, c) == RemoveChar(a, c) + RemoveChar(b, c)
    decreases |a|
  {
    if |a| == 0 {
      assert a + b == b;
    } else {
      assert (a + b)[1..] == a[1..] + b;
      RemoveCharAppend(a[1..], b, c);
    }
  }

  lemma {:induction false} RemoveCharAbsent(s: string, c: char)
    requires !HasChar(s, c)
    ensures RemoveChar(s, c) == s
    decreases |s|
  {
    if |s| > 0 {
      assert s[0] != c;
      RemoveCharAbsent(s[1..], c);
    }
  }

  /** ASCII lower-casing (Python's `str.lower()` on the ASCII range). */
  function ToLower(s: string): (r: string)
    ensures |r| == |s|
    ensures forall i :: 0 <= i < |s| ==> r[i] == LowerChar(s[i])
  {
    seq(|s|, i requires 0 <= i < |s| => LowerChar(s[i]))
  }

  function LowerChar(c: char): char {
    if 'A' <= c <= 'Z' then (c as int + 32) as char else c
  }

  // ---------------------------------------------------------------------------
  // Filtering
  // ---------------------------------------------------------------------------

  /** The elements that pass `keep`, in their original order. */
  function Filter(xs: seq<string>, keep: string -> bool): (r: seq<string>)
    ensures |r| <= |xs|
    decreases |xs|
  {
    if |xs| == 0 then []
    else
      var rest := Filter(xs[1..], keep);
      if keep(xs[0]) then [xs[0]] + rest else rest
  }

  /** Every element kept passes the test and comes from the input. */
  lemma {:induction false} FilterSound(xs: seq<string>, keep: string -> bool)
    ensures forall x :: x in Filter(xs, keep) ==> x in xs && keep(x)
    decreases |xs|
  {
    if |xs| > 0 {
      FilterSound(xs[1..], keep);
      forall x | x in xs[1..]
        ensures x in xs
      {
        var k :| 0 <= k < |xs[1..]| && xs[1..][k] == x;
        assert xs[k + 1] == x;
      }
    }
  }

  /** Every element that passes the test is kept. */
  lemma {:induction false} FilterComplete(xs: seq<string>, keep: string -> bool)
    ensures forall k :: 0 <= k < |xs| && keep(xs[k]) ==> xs[k] in Filter(xs, keep)
    decreases |xs|
  {
    if |xs| > 0 {
      FilterComplete(xs[1..], keep);
      forall k | 1 <= k < |xs| && keep(xs[k])
        ensures xs[k] in Filter(xs, keep)
      {
        assert xs[1..][k - 1] == xs[k];
      }
    }
  }

  /** Filtering elements that all pass changes nothing. */
  lemma {:induction false} FilterAllKept(xs: seq<string>, keep: string -> bool)
    requires forall k :: 0 <= k < |xs| ==> keep(xs[k])
    ensures Filter(xs, keep) == xs
    decreases |xs|
  {
    if |xs| > 0 {
      assert forall k :: 0 <= k < |xs[1..]| ==> xs[1..][k] == xs[k + 1];
      FilterAllKept(xs[1..], keep);
      assert [xs[0]] + xs[1..] == xs;
    }
  }

  /** Filtering distributes over concatenation. */
  lemma {:induction false} FilterAppend(a: seq<string>, x: seq<string>, keep: string -> bool)
    ensures Filter(a + x, keep) == Filter(a, keep) + Filter(x, keep)
    decreases |a|
  {
    if |a| == 0 {
      assert a + x == x;
    } else {
      assert (a + x)[1..] == a[1..] + x;
      FilterAppend(a[1..], x, keep);
    }
  }
}
