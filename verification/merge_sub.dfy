/**
 * The boundary-word migrator (`merge_Sub.py`): when a cue's stripped text
 * opens with one or two words closed by `.`, `,`, `?` or `!` and goes on
 * after that mark, the opening words move to the end of the previous cue.
 *
 * The source also has a mirror rule that would move a closing phrase to the
 * next cue; its guard can never hold (`TrailingGuardNeverHolds`), so the
 * pass is modelled without it.
 *
 * The list of cues is copied shallowly, so a cue edited while the previous
 * cue is processed is seen edited by later steps; `MoveFrom` threads one
 * list through the steps to the same effect.
 */
module BoundaryWords {
  import opened Wrappers
  import opened Text
  import opened Srt

  /** The word characters of the pattern: `\w`, the range `À-ỹ`, `'`, `’` and `-`. */
  predicate IsTokenChar(c: char) {
    IsWordChar(c) || ('À' <= c <= 'ỹ') || c == '\'' || c == '’' || c == '-'
  }

  /** The closing marks `[.,?!]`. */
  predicate IsStop(c: char) {
    c == '.' || c == ',' || c == '?' || c == '!'
  }

  /** Length of the maximal run of word characters at the front of `s`. */
  function TokRun(s: string): (k: nat)
    ensures k <= |s|
    ensures forall j :: 0 <= j < k ==> IsTokenChar(s[j])
    ensures k < |s| ==> !IsTokenChar(s[k])
    decreases |s|
  {
    if |s| > 0 && IsTokenChar(s[0]) then 1 + TokRun(s[1..]) else 0
  }

  /** What `\s?` takes at position `k`: one whitespace character if there is one. */
  function OptSpace(s: string, k: nat): (n: nat)
    ensures n <= 1
  {
    if k < |s| && IsSpace(s[k]) then 1 else 0
  }

  /**
   * The length of the match of `^((?:[\wÀ-ỹ'’\-]+\s?){1,2})([.,?!])`: a word,
   * optionally one whitespace character and a second word with its own
   * optional whitespace character, then a closing mark.
   */
  function LeadMatch(t: string): (r: Option<nat>)
    ensures r.Some? ==> 2 <= r.value <= |t|
  {
    var n1 := TokRun(t);
    if n1 == 0 then None else AfterFirst(t, n1 + OptSpace(t, n1))
  }

  /** After the first word and its optional space at `p`: a mark, or a second word. */
  function AfterFirst(t: string, p: nat): (r: Option<nat>)
    requires 1 <= p <= |t|
    ensures r.Some? ==> p < r.value <= |t|
  {
    if p < |t| && IsStop(t[p]) then Some(p + 1)
    else if p < |t| && IsTokenChar(t[p]) then Closing(t, p + TokRun(t[p..]))
    else None
  }

  /** After the second word, ending at `e`: its optional space, then a mark. */
  function Closing(t: string, e: nat): (r: Option<nat>)
    requires e <= |t|
    ensures r.Some? ==> e < r.value <= |t|
  {
    var q := e + OptSpace(t, e);
    if q < |t| && IsStop(t[q]) then Some(q + 1) else None
  }

  /**
   * The leading rule at cue `i`: a cue after the first whose stripped text
   * has a match with text after it keeps the text after the match, left
   * stripped; the match goes to the end of the previous cue after one space.
   */
  function LeadMove(subs: seq<Subtitle>, i: nat): (r: seq<Subtitle>)
    requires i < |subs|
    ensures |r| == |subs|
    ensures forall k :: 0 <= k < |r| ==> SameTiming(r[k], subs[k])
    ensures forall k :: 0 <= k < |r| && k != i && k + 1 != i ==> r[k] == subs[k]
  {
    var t := Strip(subs[i].content);
    match LeadMatch(t)
    case Some(m) => if i > 0 && |t| > m then Donate(subs, i, t, m) else subs
    case None => subs
  }

  /** Cue `i` keeps `t[m..]`, left stripped; cue `i - 1` receives `t[..m]` after one space. */
  function Donate(subs: seq<Subtitle>, i: nat, t: string, m: nat): (r: seq<Subtitle>)
    requires 0 < i < |subs| && m <= |t|
    ensures |r| == |subs|
    ensures forall k :: 0 <= k < |r| ==> SameTiming(r[k], subs[k])
    ensures forall k :: 0 <= k < |r| && k != i && k + 1 != i ==> r[k] == subs[k]
    ensures r[i].content == LStrip(t[m..])
    ensures r[i - 1].content == RStrip(subs[i - 1].content) + " " + t[..m]
  {
    subs[i := subs[i].(content := LStrip(t[m..]))][i - 1 := subs[i - 1].(content := RStrip(subs[i - 1].content) + " " + t[..m])]
  }

  /** The cue keeps its index and times. */
  predicate SameTiming(a: Subtitle, b: Subtitle) {
    a.index == b.index && a.start == b.start && a.end == b.end
  }

  /** The pass over cues `i`, `i + 1`, … in order, each step seeing the earlier edits. */
  function MoveFrom(subs: seq<Subtitle>, i: nat): (r: seq<Subtitle>)
    requires i <= |subs|
    ensures |r| == |subs|
    ensures forall k :: 0 <= k < |r| ==> SameTiming(r[k], subs[k])
    decreases |subs| - i
  {
    if i == |subs| then subs else MoveFrom(LeadMove(subs, i), i + 1)
  }

  /** `move_short_sentences`: timings stay, and the in-order text of all cues is kept, whitespace aside. */
  function MoveShortSentences(subs: seq<Subtitle>): (r: seq<Subtitle>)
    ensures |r| == |subs|
    ensures forall k :: 0 <= k < |r| ==> SameTiming(r[k], subs[k])
    ensures SquashAll(Contents(r)) == SquashAll(Contents(subs))
  {
    MoveFromKeepsText(subs, 0);
    MoveFrom(subs, 0)
  }

  function Contents(subs: seq<Subtitle>): (r: seq<string>)
    ensures |r| == |subs|
    ensures forall k :: 0 <= k < |subs| ==> r[k] == subs[k].content
  {
    seq(|subs|, k requires 0 <= k < |subs| => subs[k].content)
  }

  // ---------------------------------------------------------------------------
  // Proofs: the match
  // ---------------------------------------------------------------------------

  /** `t` opens with a word of `n` characters followed by a character that is not a word character. */
  predicate WordAt(t: string, a: nat, n: nat) {
    n > 0 && a + n <= |t| && (forall j :: a <= j < a + n ==> IsTokenChar(t[j]))
    && (a + n == |t| || !IsTokenChar(t[a + n]))
  }

  lemma {:induction false} TokRunAt(t: string, a: nat, n: nat)
    requires WordAt(t, a, n)
    ensures TokRun(t[a..]) == n
    decreases n
  {
    var u := t[a..];
    assert u[0] == t[a];
    if n > 1 {
      assert u[1..] == t[a + 1..];
      TokRunAt(t, a + 1, n - 1);
    } else {
      assert u[1..] == t[a + 1..];
    }
  }

  /** One word, an optional space, a closing mark: matched through the mark. */
  lemma {:induction false} LeadMatchOneWord(t: string, n: nat, sp: nat)
    requires WordAt(t, 0, n) && sp <= 1 && n + sp < |t|
    requires sp == 1 ==> t[n] == ' '
    requires IsStop(t[n + sp])
    ensures LeadMatch(t) == Some(n + sp + 1)
  {
    TokRunAt(t, 0, n);
    assert t[0..] == t;
  }

  /**
   * Two words separated by one space, an optional space, a closing mark:
   * matched through the mark.
   */
  lemma {:induction false} LeadMatchTwoWords(t: string, n1: nat, n2: nat, sp: nat)
    requires WordAt(t, 0, n1) && n1 < |t| && t[n1] == ' '
    requires WordAt(t, n1 + 1, n2) && sp <= 1 && n1 + 1 + n2 + sp < |t|
    requires sp == 1 ==> t[n1 + 1 + n2] == ' '
    requires IsStop(t[n1 + 1 + n2 + sp])
    ensures LeadMatch(t) == Some(n1 + 1 + n2 + sp + 1)
  {
    TokRunAt(t, 0, n1);
    assert t[0..] == t;
    assert OptSpace(t, n1) == 1;
    assert LeadMatch(t) == AfterFirst(t, n1 + 1);
    TokRunAt(t, n1 + 1, n2);
    StopNotWord(t[n1 + 1]);
    assert AfterFirst(t, n1 + 1) == Closing(t, n1 + 1 + n2);
    assert OptSpace(t, n1 + 1 + n2) == sp;
  }

  lemma {:induction false} StopNotWord(c: char)
    requires IsTokenChar(c)
    ensures !IsStop(c)
  {
  }

  /**
   * A match is one or two words, each followed by at most one whitespace
   * character, and then a mark: a first word of `n1` characters, `s1` spaces,
   * then either the mark or a second word of `n2` characters, `s2` spaces and
   * the mark.
   */
  lemma {:induction false} LeadMatchShape(t: string)
    requires LeadMatch(t).Some?
    ensures IsTokenChar(t[0]) && IsStop(t[LeadMatch(t).value - 1])
    ensures forall j :: 0 <= j < LeadMatch(t).value - 1 ==> IsTokenChar(t[j]) || IsSpace(t[j])
    ensures var m, n1 := LeadMatch(t).value, TokRun(t);
      var s1 := OptSpace(t, n1);
      && WordAt(t, 0, n1) && (s1 == 1 ==> IsSpace(t[n1]))
      && (m - 1 == n1 + s1 ||
          var n2 := TokRun(t[n1 + s1..]);
          var s2 := OptSpace(t, n1 + s1 + n2);
          && n1 + s1 < |t| && WordAt(t, n1 + s1, n2) && (s2 == 1 ==> IsSpace(t[n1 + s1 + n2]))
          && m - 1 == n1 + s1 + n2 + s2)
  {
    LeadMatchChars(t);
    LeadMatchWords(t);
  }

  lemma {:induction false} LeadMatchChars(t: string)
    requires LeadMatch(t).Some?
    ensures IsTokenChar(t[0]) && IsStop(t[LeadMatch(t).value - 1])
    ensures forall j :: 0 <= j < LeadMatch(t).value - 1 ==> IsTokenChar(t[j]) || IsSpace(t[j])
  {
    var n1 := TokRun(t);
    var p := n1 + OptSpace(t, n1);
    if !(p < |t| && IsStop(t[p])) {
      SecondShape(t, p);
    }
  }

  lemma {:induction false} LeadMatchWords(t: string)
    requires LeadMatch(t).Some?
    ensures var m, n1 := LeadMatch(t).value, TokRun(t);
      var s1 := OptSpace(t, n1);
      && WordAt(t, 0, n1) && (s1 == 1 ==> IsSpace(t[n1]))
      && (m - 1 == n1 + s1 ||
          var n2 := TokRun(t[n1 + s1..]);
          var s2 := OptSpace(t, n1 + s1 + n2);
          && n1 + s1 < |t| && WordAt(t, n1 + s1, n2) && (s2 == 1 ==> IsSpace(t[n1 + s1 + n2]))
          && m - 1 == n1 + s1 + n2 + s2)
  {
    var p := FirstWord(t);
    if !(p < |t| && IsStop(t[p])) {
      SecondWord(t, p);
    }
  }

  /** The first word of a match and the optional space after it; `p` is where the mark or the second word starts. */
  lemma {:induction false} FirstWord(t: string) returns (p: nat)
    requires LeadMatch(t).Some?
    ensures p == TokRun(t) + OptSpace(t, TokRun(t))
    ensures WordAt(t, 0, TokRun(t)) && (OptSpace(t, TokRun(t)) == 1 ==> IsSpace(t[TokRun(t)]))
    ensures p < |t| && IsStop(t[p]) ==> LeadMatch(t).value == p + 1
    ensures !(p < |t| && IsStop(t[p])) ==> p < |t| && IsTokenChar(t[p]) && LeadMatch(t) == Closing(t, p + TokRun(t[p..]))
  {
    p := TokRun(t) + OptSpace(t, TokRun(t));
    TokRunWord(t, 0);
    assert t[0..] == t;
    LeadMatchAfterFirst(t, p);
  }

  lemma {:induction false} LeadMatchAfterFirst(t: string, p: nat)
    requires LeadMatch(t).Some? && p == TokRun(t) + OptSpace(t, TokRun(t))
    ensures p < |t| && IsStop(t[p]) ==> LeadMatch(t).value == p + 1
    ensures !(p < |t| && IsStop(t[p])) ==> p < |t| && IsTokenChar(t[p]) && LeadMatch(t) == Closing(t, p + TokRun(t[p..]))
  {
    assert LeadMatch(t) == AfterFirst(t, p);
  }

  /** The second word of a match and the optional space after it, up to the mark. */
  lemma {:induction false} SecondWord(t: string, p: nat)
    requires 1 <= p < |t| && IsTokenChar(t[p])
    requires Closing(t, p + TokRun(t[p..])).Some?
    ensures var n2 := TokRun(t[p..]);
      var s2 := OptSpace(t, p + n2);
      && WordAt(t, p, n2) && (s2 == 1 ==> IsSpace(t[p + n2]))
      && Closing(t, p + n2).value - 1 == p + n2 + s2
  {
    TokRunWord(t, p);
  }

  /** The run of word characters from `a` on is a whole word, when it is not empty. */
  lemma {:induction false} TokRunWord(t: string, a: nat)
    requires a < |t| && IsTokenChar(t[a])
    ensures WordAt(t, a, TokRun(t[a..]))
  {
    var u := t[a..];
    var n := TokRun(u);
    assert u[0] == t[a];
    assert forall j :: a <= j < a + n ==> t[j] == u[j - a];
    if a + n < |t| {
      assert t[a + n] == u[n];
    }
  }

  lemma {:induction false} SecondShape(t: string, p: nat)
    requires 1 <= p < |t| && IsTokenChar(t[p])
    requires Closing(t, p + TokRun(t[p..])).Some?
    ensures forall j :: p <= j < Closing(t, p + TokRun(t[p..])).value - 1 ==> IsTokenChar(t[j]) || IsSpace(t[j])
  {
    var n2 := TokRun(t[p..]);
    assert forall j :: p <= j < p + n2 ==> t[j] == t[p..][j - p];
  }

  // ---------------------------------------------------------------------------
  // Proofs: the pass
  // ---------------------------------------------------------------------------

  /** The two cues a move rewrites squash to what they squashed to before. */
  lemma {:induction false} MovedPairSquash(a: string, t: string, m: nat)
    requires m <= |t|
    ensures Squash(RStrip(a) + " " + t[..m]) + Squash(LStrip(t[m..])) == Squash(a) + Squash(t)
  {
    SquashSpaceJoin(RStrip(a), t[..m]);
    SquashRStrip(a);
    SquashLStrip(t[m..]);
    TakeDrop(t, m);
    SquashAppend(t[..m], t[m..]);
  }

  /** A leading move keeps the in-order text of all cues, whitespace aside. */
  lemma {:induction false} LeadMoveKeepsText(subs: seq<Subtitle>, i: nat)
    requires i < |subs|
    ensures SquashAll(Contents(LeadMove(subs, i))) == SquashAll(Contents(subs))
  {
    var t := Strip(subs[i].content);
    var r := LeadMove(subs, i);
    if r != subs {
      var m := LeadMatch(t).value;
      MovedPairSquash(subs[i - 1].content, t, m);
      SquashStrip(subs[i].content);
      SquashAllPair(Contents(r), Contents(subs), i - 1);
    }
  }

  lemma {:induction false} MoveFromKeepsText(subs: seq<Subtitle>, i: nat)
    requires i <= |subs|
    ensures SquashAll(Contents(MoveFrom(subs, i))) == SquashAll(Contents(subs))
    decreases |subs| - i
  {
    if i < |subs| {
      LeadMoveKeepsText(subs, i);
      MoveFromKeepsText(LeadMove(subs, i), i + 1);
    }
  }

  /** A move never leaves a cue empty: the donor keeps the text after the mark. */
  lemma {:induction false} LeadMoveKeepsCues(subs: seq<Subtitle>, i: nat)
    requires i < |subs|
    ensures forall k :: 0 <= k < |subs| && |subs[k].content| > 0 ==> |LeadMove(subs, i)[k].content| > 0
  {
    var t := Strip(subs[i].content);
    if LeadMatch(t).Some? && i > 0 && |t| > LeadMatch(t).value {
      DonateKeepsCues(subs, i, t, LeadMatch(t).value);
      assert LeadMove(subs, i) == Donate(subs, i, t, LeadMatch(t).value);
    } else {
      assert LeadMove(subs, i) == subs;
    }
  }

  lemma {:induction false} DonateKeepsCues(subs: seq<Subtitle>, i: nat, t: string, m: nat)
    requires 0 < i < |subs| && m < |t| && !IsSpace(t[|t| - 1])
    ensures forall k :: 0 <= k < |subs| && |subs[k].content| > 0 ==> |Donate(subs, i, t, m)[k].content| > 0
  {
    NonEmptyRest(t, m);
  }

  /** What follows the match in a stripped text ends in a non-space character. */
  lemma {:induction false} NonEmptyRest(t: string, m: nat)
    requires m < |t| && !IsSpace(t[|t| - 1])
    ensures |LStrip(t[m..])| > 0
  {
    var u := t[m..];
    assert u[|u| - 1] == t[|t| - 1];
  }

  // ---------------------------------------------------------------------------
  // The trailing rule
  // ---------------------------------------------------------------------------

  /**
   * The trailing rule fires only when the stripped text does not end with its
   * match, stripped. The match of a pattern ending in `\s*$` is a suffix of
   * the text, so whatever position it starts at, the guard is false: no cue
   * is ever shortened at its end.
   */
  lemma {:induction false} TrailingGuardNeverHolds(content: string, s: nat)
    requires s <= |Strip(content)|
    ensures EndsWith(Strip(content), Strip(Strip(content)[s..]))
  {
    var t := Strip(content);
    StrippedSuffix(t, t[s..]);
  }

  /** A suffix of a text that ends in a non-space character still ends the text once stripped. */
  lemma {:induction false} StrippedSuffix(t: string, u: string)
    requires |u| <= |t| && u == t[|t| - |u|..]
    requires |t| == 0 || !IsSpace(t[|t| - 1])
    ensures EndsWith(t, Strip(u))
  {
    var l := LStrip(u);
    if |l| > 0 {
      assert l[|l| - 1] == u[|u| - 1];
      assert u[|u| - 1] == t[|t| - 1];
    }
    RStripNoTrailingSpace(l);
    assert l == u[|u| - |l|..];
    assert u[|u| - |l|..] == t[|t| - |l|..];
  }

}
