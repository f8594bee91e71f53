/**
 * The punctuation pass (`srt_Cleaner.py`). Each cue is read as its index
 * line, its timing line and its text lines joined by single spaces. When the
 * text of the whole file holds fewer than ten dots, two comma rules rewrite
 * each text; then a cue whose text equals the text of the cue kept just
 * before it is dropped, and the kept cues are written renumbered 1..N.
 */
module SrtCleaner {
  import opened Wrappers
  import opened Text
  import opened Decimal
  import opened Blocks
  import opened Srt

  /** A block read as an entry; nothing for a blank block or one of fewer than three lines. */
  function ReadEntry(block: string): Option<Entry> {
    if IsBlank(block) then None
    else
      var lines := BlockLines(block);
      if |lines| < 3 then None else Some(Entry(lines[0], lines[1], Join(lines[2..], " ")))
  }

  /** The entries of the blocks that read as entries, in order. */
  function Entries(blocks: seq<string>): (r: seq<Entry>)
    ensures |r| <= |blocks|
    decreases |blocks|
  {
    if |blocks| == 0 then []
    else
      var rest := Entries(blocks[1..]);
      match ReadEntry(blocks[0])
      case None => rest
      case Some(e) => [e] + rest
  }

  /** The entries of a file: its stripped text cut at blank lines. */
  function ReadEntries(content: string): seq<Entry> {
    Entries(SplitBlank(Strip(content)))
  }

  // ---------------------------------------------------------------------------
  // count_dots_in_content
  // ---------------------------------------------------------------------------

  /** `s.count(c)` for one character. */
  function CountChar(s: string, c: char): nat
    decreases |s|
  {
    if |s| == 0 then 0 else (if s[0] == c then 1 else 0) + CountChar(s[1..], c)
  }

  /** The dots of the entries' texts. */
  function DotsIn(es: seq<Entry>): nat
    decreases |es|
  {
    if |es| == 0 then 0 else CountChar(es[0].text, '.') + DotsIn(es[1..])
  }

  /** `count_dots_in_content`. */
  function CountDots(content: string): nat {
    DotsIn(ReadEntries(content))
  }

  /** The dots of a sequence of lines. */
  function LineDots(lines: seq<string>): nat
    decreases |lines|
  {
    if |lines| == 0 then 0 else CountChar(lines[0], '.') + LineDots(lines[1..])
  }

  // ---------------------------------------------------------------------------
  // The comma rules
  // ---------------------------------------------------------------------------

  /**
   * `re.sub(r'(?<![B])\s+(F)', ', \1', t)` where F starts with a
   * non-whitespace character: every maximal whitespace run whose preceding
   * character is not `blocked`, and after which `follows` holds, becomes
   * `", "`. `before` is the character preceding `t`, if any.
   */
  function SubRuns(t: string, before: Option<char>, blocked: char -> bool, follows: string -> bool): string
    decreases |t|
  {
    if |t| == 0 then ""
    else if !IsSpace(t[0]) then [t[0]] + SubRuns(t[1..], Some(t[0]), blocked, follows)
    else
      var n := SpaceRun(t);
      var rest := SubRuns(t[n..], Some(t[n - 1]), blocked, follows);
      if (before.None? || !blocked(before.value)) && follows(t[n..]) then ", " + rest
      else t[..n] + rest
  }

  const Nhung: string := "nhưng"

  /** Rule 1 looks behind for `[,\s]`. */
  predicate Rule1Blocked(c: char) {
    c == ',' || IsSpace(c)
  }

  /** Rule 1 looks ahead for `nhưng\b`. */
  predicate NhungFollows(u: string) {
    |u| >= 5 && u[..5] == Nhung && (|u| == 5 || !IsWordChar(u[5]))
  }

  /** Rule 1: a comma before `nhưng`. */
  function Rule1(t: string): string {
    SubRuns(t, None, Rule1Blocked, NhungFollows)
  }

  const VietUpper: string := "ÀÁẠẢÃÂẦẤẬẨẪĂẰẮẶẲẴÈÉẸẺẼÊỀẾỆỂỄÌÍỊỈĨÒÓỌỎÕÔỒỐỘỔỖƠỜỚỢỞỠÙÚỤỦŨƯỪỨỰỬỮỲÝỴỶỸĐ"
  const VietLower: string := "àáạảãâầấậẩẫăằắặẳẵèéẹẻẽêềếệểễìíịỉĩòóọỏõôồốộổỗơờớợởỡùúụủũưừứựửữỳýỵỷỹđ"
  const Consonants: string := "BCDFGHJKLMNPQRSTVWXYZ"

  /** Rule 2 looks behind for `[,\s!?]`. */
  predicate Rule2Blocked(c: char) {
    c == ',' || c == '!' || c == '?' || IsSpace(c)
  }

  /** Rule 2 looks ahead for a capitalised Vietnamese word: an accented capital, or a plain consonant capital before an accented small letter. */
  predicate CapitalFollows(u: string) {
    |u| >= 1 && (u[0] in VietUpper || (|u| >= 2 && u[0] in Consonants && u[1] in VietLower))
  }

  /** Rule 2: a comma before a capitalised Vietnamese word. */
  function Rule2(t: string): string {
    SubRuns(t, None, Rule2Blocked, CapitalFollows)
  }

  /** Both rules applied to one entry's text. */
  function Punctuate(e: Entry): Entry {
    e.(text := Rule2(Rule1(e.text)))
  }

  /** The characters of `s` other than whitespace and commas. */
  function Visible(s: string): string
    decreases |s|
  {
    if |s| == 0 then ""
    else if IsSpace(s[0]) || s[0] == ',' then Visible(s[1..])
    else [s[0]] + Visible(s[1..])
  }

  // ---------------------------------------------------------------------------
  // Adjacent-duplicate removal
  // ---------------------------------------------------------------------------

  /** The loop of rule 3: an entry is dropped when its text equals the text last kept (`prev`). */
  function DedupFrom(es: seq<Entry>, prev: Option<string>): (r: seq<Entry>)
    ensures |r| <= |es|
    decreases |es|
  {
    if |es| == 0 then []
    else if Some(es[0].text) != prev then [es[0]] + DedupFrom(es[1..], Some(es[0].text))
    else DedupFrom(es[1..], prev)
  }

  function Dedup(es: seq<Entry>): seq<Entry> {
    DedupFrom(es, None)
  }

  /**
   * Reference reading of rule 3: an entry is dropped when its text equals the
   * text of the entry just before it in the input (`prev`), kept or not.
   */
  function DropRepeats(es: seq<Entry>, prev: Option<string>): seq<Entry>
    decreases |es|
  {
    if |es| == 0 then []
    else
      var rest := DropRepeats(es[1..], Some(es[0].text));
      if Some(es[0].text) == prev then rest else [es[0]] + rest
  }

  /** Some entry carries the text `t`. */
  predicate HasText(es: seq<Entry>, t: string) {
    exists j :: 0 <= j < |es| && es[j].text == t
  }

  /** No two consecutive entries carry the same text. */
  predicate NoAdjacentRepeat(es: seq<Entry>) {
    forall i :: 0 < i < |es| ==> es[i].text != es[i - 1].text
  }

  // ---------------------------------------------------------------------------
  // Output
  // ---------------------------------------------------------------------------

  /** The written block of an entry numbered `n`: `n\ntimestamp\ntext\n`. */
  function ShowEntry(n: int, e: Entry): string {
    NumberedBlock(n, [e.timestamp, e.text]) + "\n"
  }

  /** The kept entries written numbered 1..N, blocks joined by one newline. */
  function Render(es: seq<Entry>): string {
    Join(seq(|es|, k requires 0 <= k < |es| => ShowEntry(k + 1, es[k])), "\n")
  }

  /** The entries with their index lines rewritten 1..N. */
  function Renumber(es: seq<Entry>): (r: seq<Entry>)
    ensures |r| == |es|
  {
    seq(|es|, k requires 0 <= k < |es| => es[k].(num := IntToString(k + 1)))
  }

  /** Both rules applied to every entry. */
  function PunctuateAll(es: seq<Entry>): (r: seq<Entry>)
    ensures |r| == |es|
  {
    seq(|es|, k requires 0 <= k < |es| => Punctuate(es[k]))
  }

  /** The entries written for a file with `dots` dots: punctuated unless there are ten or more. */
  function PassEntries(es: seq<Entry>, dots: nat): seq<Entry> {
    if dots >= 10 then Dedup(es) else Dedup(PunctuateAll(es))
  }

  /** `process_srt_content`. */
  function ProcessSrtContent(content: string): string {
    Render(PassEntries(ReadEntries(content), CountDots(content)))
  }

  /** `process_only_duplicates`. */
  function OnlyDuplicates(content: string): string {
    Render(Dedup(ReadEntries(content)))
  }

  // ---------------------------------------------------------------------------
  // Proofs: reading and dots
  // ---------------------------------------------------------------------------

  /** A block reads as an entry exactly when it has at least three stripped lines, whose
      first two are the index and timing lines. */
  lemma {:induction false} ReadEntrySpec(block: string)
    ensures ReadEntry(block).Some? <==> |BlockLines(block)| >= 3
    ensures ReadEntry(block).Some? ==>
      var e := ReadEntry(block).value;
      e.num == BlockLines(block)[0] && e.timestamp == BlockLines(block)[1]
      && CountChar(e.text, '.') == LineDots(BlockLines(block)[2..])
  {
    if IsBlank(block) {
      BlankBlockShort(block);
    } else if |BlockLines(block)| >= 3 {
      JoinSpaceDots(BlockLines(block)[2..]);
    }
  }

  lemma {:induction false} CountCharAppend(a: string, b: string, c: char)
    ensures CountChar(a + b, c) == CountChar(a, c) + CountChar(b, c)
    decreases |a|
  {
    if |a| == 0 {
      assert a + b == b;
    } else {
      assert (a + b)[1..] == a[1..] + b;
      CountCharAppend(a[1..], b, c);
    }
  }

  /** The spaces joining the text lines add no dots. */
  lemma {:induction false} JoinSpaceDots(lines: seq<string>)
    ensures CountChar(Join(lines, " "), '.') == LineDots(lines)
    decreases |lines|
  {
    if |lines| == 1 {
      assert lines[1..] == [];
    } else if |lines| > 1 {
      JoinSpaceDots(lines[1..]);
      CountCharAppend(lines[0] + " ", Join(lines[1..], " "), '.');
      CountCharAppend(lines[0], " ", '.');
      assert CountChar(" ", '.') == 0;
    }
  }

  // ---------------------------------------------------------------------------
  // Proofs: the comma rules
  // ---------------------------------------------------------------------------

  lemma {:induction false} VisibleAppend(a: string, b: string)
    ensures Visible(a + b) == Visible(a) + Visible(b)
    decreases |a|
  {
    if |a| == 0 {
      assert a + b == b;
    } else {
      assert (a + b)[1..] == a[1..] + b;
      VisibleAppend(a[1..], b);
    }
  }

  lemma {:induction false} VisibleSpaces(s: string)
    requires AllSpace(s)
    ensures Visible(s) == ""
    decreases |s|
  {
    if |s| > 0 {
      VisibleSpaces(s[1..]);
    }
  }

  /** A rule only turns whitespace into `", "`: the other characters stay, in order. */
  lemma {:induction false} SubRunsVisible(t: string, before: Option<char>, blocked: char -> bool, follows: string -> bool)
    ensures Visible(SubRuns(t, before, blocked, follows)) == Visible(t)
    decreases |t|
  {
    if |t| > 0 {
      if !IsSpace(t[0]) {
        SubRunsVisible(t[1..], Some(t[0]), blocked, follows);
        VisibleAppend([t[0]], SubRuns(t[1..], Some(t[0]), blocked, follows));
        VisibleAppend([t[0]], t[1..]);
        assert [t[0]] + t[1..] == t;
      } else {
        var n := SpaceRun(t);
        var rest := SubRuns(t[n..], Some(t[n - 1]), blocked, follows);
        SubRunsVisible(t[n..], Some(t[n - 1]), blocked, follows);
        VisibleAppend(", ", rest);
        assert Visible(", ") == "" by {
          assert ", "[1..] == " ";
          assert " "[1..] == "";
        }
        VisibleAppend(t[..n], rest);
        VisibleAppend(t[..n], t[n..]);
        VisibleSpaces(t[..n]);
        assert t[..n] + t[n..] == t;
      }
    }
  }

  /** Both rules keep every character other than whitespace and commas. */
  lemma {:induction false} PunctuateVisible(e: Entry)
    ensures Visible(Punctuate(e).text) == Visible(e.text)
    ensures Punctuate(e).num == e.num && Punctuate(e).timestamp == e.timestamp
  {
    SubRunsVisible(e.text, None, Rule1Blocked, NhungFollows);
    SubRunsVisible(Rule1(e.text), None, Rule2Blocked, CapitalFollows);
  }

  /** What precedes a text that starts with a non-whitespace character does not matter. */
  lemma {:induction false} BeforeIrrelevant(x: string, b1: Option<char>, b2: Option<char>, blocked: char -> bool, follows: string -> bool)
    requires |x| > 0 && !IsSpace(x[0])
    ensures SubRuns(x, b1, blocked, follows) == SubRuns(x, b2, blocked, follows)
  {
  }

  /** The rewritten text is empty exactly when the text is, and starts with the text's first
      character or, in place of a whitespace run, with a comma. */
  lemma {:induction false} SubRunsFirst(x: string, b: Option<char>, blocked: char -> bool, follows: string -> bool)
    ensures |SubRuns(x, b, blocked, follows)| == 0 <==> |x| == 0
    ensures |x| > 0 ==> var r := SubRuns(x, b, blocked, follows);
      r[0] == x[0] || (IsSpace(x[0]) && r[0] == ',')
  {
    if |x| > 0 && IsSpace(x[0]) {
      var n := SpaceRun(x);
      assert n > 0;
      assert x[..n][0] == x[0];
    }
  }

  /** The leading non-whitespace characters are copied unchanged. */
  lemma {:induction false} SubRunsPrefix(u: string, b: Option<char>, k: nat, blocked: char -> bool, follows: string -> bool)
    requires 0 < k <= |u| && NoSpace(u[..k])
    ensures SubRuns(u, b, blocked, follows) == u[..k] + SubRuns(u[k..], Some(u[k - 1]), blocked, follows)
    decreases k
  {
    assert u[..k][0] == u[0];
    assert SubRuns(u, b, blocked, follows) == [u[0]] + SubRuns(u[1..], Some(u[0]), blocked, follows);
    if k == 1 {
      assert u[..1] == [u[0]];
    } else {
      var rest := SubRuns(u[k..], Some(u[k - 1]), blocked, follows);
      var mid := u[1..][..k - 1];
      assert mid == u[..k][1..];
      SubRunsPrefix(u[1..], Some(u[0]), k - 1, blocked, follows);
      assert u[1..][k - 1..] == u[k..];
      assert u[1..][k - 1 - 1] == u[k - 1];
      assert [u[0]] + mid == u[..k];
      Regroup3([u[0]], mid, rest);
    }
  }

  lemma {:induction false} Regroup3(a: string, b: string, c: string)
    ensures a + (b + c) == (a + b) + c
  {
  }

  /** The look-ahead of rule 1 sees the same thing before and after the rewrite. */
  lemma {:induction false} NhungStable(u: string, b: Option<char>)
    requires |u| == 0 || !IsSpace(u[0])
    ensures NhungFollows(SubRuns(u, b, Rule1Blocked, NhungFollows)) <==> NhungFollows(u)
  {
    var v := SubRuns(u, b, Rule1Blocked, NhungFollows);
    if |u| > 0 {
      var k := TokenRun(u);
      SubRunsPrefix(u, b, k, Rule1Blocked, NhungFollows);
      var w := SubRuns(u[k..], Some(u[k - 1]), Rule1Blocked, NhungFollows);
      SubRunsFirst(u[k..], Some(u[k - 1]), Rule1Blocked, NhungFollows);
      NhungAgree(u, v, k);
    }
  }

  /** Two texts that share their non-whitespace prefix of length `k`, and continue with a
      whitespace character or a comma (or end together), agree on rule 1's look-ahead. */
  lemma {:induction false} NhungAgree(u: string, v: string, k: nat)
    requires k <= |u| && k <= |v| && u[..k] == v[..k] && NoSpace(u[..k])
    requires k < |u| ==> IsSpace(u[k])
    requires k < |v| ==> v[k] == ',' || IsSpace(v[k])
    requires k == |u| <==> k == |v|
    ensures NhungFollows(u) <==> NhungFollows(v)
  {
    if k >= 5 {
      assert u[..5] == u[..k][..5] && v[..5] == v[..k][..5];
      if k > 5 {
        assert u[5] == u[..k][5] && v[5] == v[..k][5];
      }
    }
  }

  /** Rule 1 changes nothing in a text it has already rewritten. */
  lemma {:induction false} SubRunsRule1Idempotent(t: string, b: Option<char>)
    ensures var r := SubRuns(t, b, Rule1Blocked, NhungFollows);
      SubRuns(r, b, Rule1Blocked, NhungFollows) == r
    decreases |t|
  {
    if |t| > 0 {
      if !IsSpace(t[0]) {
        SubRunsRule1Idempotent(t[1..], Some(t[0]));
        var rest := SubRuns(t[1..], Some(t[0]), Rule1Blocked, NhungFollows);
        HeadStep([t[0]] + rest, t[0], rest, b);
      } else {
        var n := SpaceRun(t);
        var u := t[n..];
        var b' := Some(t[n - 1]);
        var rest := SubRuns(u, b', Rule1Blocked, NhungFollows);
        SubRunsRule1Idempotent(u, b');
        SubRunsFirst(u, b', Rule1Blocked, NhungFollows);
        if (b.None? || !Rule1Blocked(b.value)) && NhungFollows(u) {
          FiredAgain(rest, b, b');
        } else {
          NhungStable(u, b');
          QuietAgain(t[..n], rest, b, b');
        }
      }
    }
  }

  /** A text starting with a non-whitespace character `c` is rewritten as `c` and the rest. */
  lemma {:induction false} HeadStep(x: string, c: char, rest: string, b: Option<char>)
    requires x == [c] + rest && !IsSpace(c)
    requires SubRuns(rest, Some(c), Rule1Blocked, NhungFollows) == rest
    ensures SubRuns(x, b, Rule1Blocked, NhungFollows) == x
  {
    assert x[0] == c && x[1..] == rest;
  }

  /** A run rewritten to `", "` is left alone the second time: a comma now precedes it. */
  lemma {:induction false} FiredAgain(rest: string, b: Option<char>, b': Option<char>)
    requires |rest| > 0 && !IsSpace(rest[0])
    requires SubRuns(rest, b', Rule1Blocked, NhungFollows) == rest
    ensures SubRuns(", " + rest, b, Rule1Blocked, NhungFollows) == ", " + rest
  {
    var x := ", " + rest;
    var y := " " + rest;
    assert x[0] == ',' && x[1..] == y;
    assert y[0] == ' ' && y[1..] == rest;
    assert SpaceRun(y) == 1 by {
      assert SpaceRun(rest) == 0;
    }
    assert y[..1] == " " && y[1..] == rest;
    BeforeIrrelevant(rest, Some(' '), b', Rule1Blocked, NhungFollows);
  }

  /** A run left alone is left alone the second time: the look-behind and look-ahead see the same. */
  lemma {:induction false} QuietAgain(run: string, rest: string, b: Option<char>, b': Option<char>)
    requires |run| > 0 && AllSpace(run) && (|rest| == 0 || !IsSpace(rest[0]))
    requires b' == Some(run[|run| - 1])
    requires !((b.None? || !Rule1Blocked(b.value)) && NhungFollows(rest))
    requires SubRuns(rest, b', Rule1Blocked, NhungFollows) == rest
    ensures SubRuns(run + rest, b, Rule1Blocked, NhungFollows) == run + rest
  {
    var x := run + rest;
    SpaceRunOf(run, rest);
    assert x[..|run|] == run && x[|run|..] == rest;
    assert x[|run| - 1] == run[|run| - 1];
  }

  /** Rule 1 applied twice is rule 1 applied once. */
  lemma {:induction false} Rule1Idempotent(t: string)
    ensures Rule1(Rule1(t)) == Rule1(t)
  {
    SubRunsRule1Idempotent(t, None);
  }

  // ---------------------------------------------------------------------------
  // Proofs: adjacent-duplicate removal
  // ---------------------------------------------------------------------------

  /** Comparing with the text last kept is comparing with the text just before: a dropped
      entry carries that very text. */
  lemma {:induction false} DedupIsDropRepeats(es: seq<Entry>, prev: Option<string>)
    ensures DedupFrom(es, prev) == DropRepeats(es, prev)
    decreases |es|
  {
    if |es| > 0 {
      DedupIsDropRepeats(es[1..], Some(es[0].text));
      if Some(es[0].text) == prev {
        DedupIsDropRepeats(es[1..], prev);
      }
    }
  }

  lemma {:induction false} DedupNoAdjacentFrom(es: seq<Entry>, prev: Option<string>)
    ensures NoAdjacentRepeat(DedupFrom(es, prev))
    ensures |DedupFrom(es, prev)| > 0 ==> Some(DedupFrom(es, prev)[0].text) != prev
    decreases |es|
  {
    if |es| > 0 {
      DedupNoAdjacentFrom(es[1..], Some(es[0].text));
      DedupNoAdjacentFrom(es[1..], prev);
      if Some(es[0].text) != prev {
        var rest := DedupFrom(es[1..], Some(es[0].text));
        var r := [es[0]] + rest;
        forall i | 0 < i < |r|
          ensures r[i].text != r[i - 1].text
        {
          if i > 1 {
            assert r[i] == rest[i - 1] && r[i - 1] == rest[i - 1 - 1];
          }
        }
      }
    }
  }

  /** After rule 3 no two consecutive entries carry the same text. */
  lemma {:induction false} DedupNoAdjacent(es: seq<Entry>)
    ensures NoAdjacentRepeat(Dedup(es))
  {
    DedupNoAdjacentFrom(es, None);
  }

  lemma {:induction false} DedupKeepsFrom(es: seq<Entry>, prev: Option<string>)
    requires NoAdjacentRepeat(es)
    requires |es| > 0 ==> Some(es[0].text) != prev
    ensures DedupFrom(es, prev) == es
    decreases |es|
  {
    if |es| > 0 {
      assert NoAdjacentRepeat(es[1..]) by {
        forall i | 0 < i < |es[1..]|
          ensures es[1..][i].text != es[1..][i - 1].text
        {
          assert es[1..][i] == es[i + 1] && es[1..][i - 1] == es[i];
        }
      }
      if |es| > 1 {
        assert es[1..][0] == es[1];
      }
      DedupKeepsFrom(es[1..], Some(es[0].text));
      assert [es[0]] + es[1..] == es;
    }
  }

  /** Rule 3 applied twice is rule 3 applied once. */
  lemma {:induction false} DedupIdempotent(es: seq<Entry>)
    ensures Dedup(Dedup(es)) == Dedup(es)
  {
    DedupNoAdjacent(es);
    DedupKeepsFrom(Dedup(es), None);
  }

  /** Every kept entry is an input entry, and every input text survives in some kept entry. */
  lemma {:induction false} DedupTexts(es: seq<Entry>, prev: Option<string>)
    ensures forall e :: e in DedupFrom(es, prev) ==> e in es
    ensures forall i :: 0 <= i < |es| ==> Some(es[i].text) == prev || HasText(DedupFrom(es, prev), es[i].text)
    decreases |es|
  {
    if |es| > 0 {
      var p' := if Some(es[0].text) != prev then Some(es[0].text) else prev;
      DedupTexts(es[1..], p');
      var r := DedupFrom(es, prev);
      var rest := DedupFrom(es[1..], p');
      assert r == (if Some(es[0].text) != prev then [es[0]] + rest else rest);
      forall e | e in r
        ensures e in es
      {
        if e in rest {
          var k :| 0 <= k < |es[1..]| && es[1..][k] == e;
          assert es[k + 1] == e;
        }
      }
      forall i | 0 <= i < |es| && Some(es[i].text) != prev
        ensures HasText(r, es[i].text)
      {
        if i == 0 {
          assert r[0].text == es[i].text;
        } else {
          assert es[1..][i - 1] == es[i];
          if Some(es[i].text) == p' {
            assert r[0].text == es[i].text;
          } else {
            assert HasText(rest, es[i].text);
            var j :| 0 <= j < |rest| && rest[j].text == es[i].text;
            if Some(es[0].text) != prev {
              assert r[j + 1].text == es[i].text;
            } else {
              assert r[j].text == es[i].text;
            }
          }
        }
      }
    }
  }

  // ---------------------------------------------------------------------------
  // Proofs: output
  // ---------------------------------------------------------------------------

  /** A field that is written on one line and read back intact. */
  predicate CleanField(s: string) {
    |s| > 0 && !IsSpace(s[0]) && !IsSpace(s[|s| - 1]) && !HasChar(s, '\n')
  }

  /** The three lines of a written block. */
  function EntryLines(n: int, e: Entry): seq<string> {
    [IntToString(n), e.timestamp, e.text]
  }

  /** The written output is the numbered blocks separated by one empty line, plus a final newline. */
  lemma {:induction false} RenderShape(es: seq<Entry>)
    requires |es| > 0
    ensures Render(es) == Join(seq(|es|, k requires 0 <= k < |es| => Join(EntryLines(k + 1, es[k]), "\n")), "\n\n") + "\n"
    decreases |es|
  {
    var shown := seq(|es|, k requires 0 <= k < |es| => ShowEntry(k + 1, es[k]));
    var blocks := seq(|es|, k requires 0 <= k < |es| => Join(EntryLines(k + 1, es[k]), "\n"));
    forall k | 0 <= k < |es|
      ensures shown[k] == blocks[k] + "\n"
    {
      assert [IntToString(k + 1)] + [es[k].timestamp, es[k].text] == EntryLines(k + 1, es[k]);
    }
    JoinNewlineEnded(shown, blocks);
  }

  /** Joining blocks that each end in a newline with a newline is joining them with an empty line. */
  lemma {:induction false} JoinNewlineEnded(shown: seq<string>, blocks: seq<string>)
    requires |shown| == |blocks| > 0
    requires forall k :: 0 <= k < |shown| ==> shown[k] == blocks[k] + "\n"
    ensures Join(shown, "\n") == Join(blocks, "\n\n") + "\n"
    decreases |shown|
  {
    if |shown| > 1 {
      JoinNewlineEnded(shown[1..], blocks[1..]);
      assert shown[0] == blocks[0] + "\n";
    }
  }

  /** A written block holds no blank line and reads back as its three lines. */
  lemma {:induction false} EntryBlockReads(n: nat, e: Entry)
    requires CleanField(e.timestamp) && CleanField(e.text)
    ensures SeparableBlock(Join(EntryLines(n, e), "\n"))
    ensures ReadEntry(Join(EntryLines(n, e), "\n")) == Some(e.(num := IntToString(n)))
  {
    var lines := EntryLines(n, e);
    var block := Join(lines, "\n");
    IntToStringSingle(n);
    NatDigitsClean(n);
    JoinedLinesBlankFree(lines);
    ThreeLinesRead(block, lines);
    assert lines[2..] == [e.text];
  }

  lemma {:induction false} ThreeLinesRead(block: string, lines: seq<string>)
    requires SeparableBlock(block) && |lines| == 3 && block == Join(lines, "\n")
    requires forall k :: 0 <= k < 3 ==> !HasChar(lines[k], '\n')
    ensures ReadEntry(block) == Some(Entry(lines[0], lines[1], Join(lines[2..], " ")))
  {
    StripOfStripped(block);
    SplitOfJoin(lines, '\n');
  }

  /** The decimal rendering of a natural number is a clean field. */
  lemma {:induction false} NatDigitsClean(n: nat)
    ensures |IntToString(n)| > 0 && !IsSpace(IntToString(n)[0]) && !IsSpace(IntToString(n)[|IntToString(n)| - 1])
  {
    var s := IntToString(n);
    assert IsDigits(s);
    assert IsDigit(s[0]) && IsDigit(s[|s| - 1]);
  }

  /** Stripping the written output removes only its final newline. */
  lemma {:induction false} StripFinalNewline(x: string)
    requires |x| > 0 && !IsSpace(x[0]) && !IsSpace(x[|x| - 1])
    ensures Strip(x + "\n") == x
  {
    var y := x + "\n";
    assert y[0] == x[0];
    assert LStrip(y) == y;
    assert y[..|y| - 1] == x;
    assert RStrip(x) == x;
  }

  lemma {:induction false} EntriesOfBlocks(blocks: seq<string>, es: seq<Entry>)
    requires |blocks| == |es|
    requires forall k :: 0 <= k < |blocks| ==> ReadEntry(blocks[k]) == Some(es[k])
    ensures Entries(blocks) == es
    decreases |blocks|
  {
    if |blocks| > 0 {
      EntriesOfBlocks(blocks[1..], es[1..]);
      assert [es[0]] + es[1..] == es;
    }
  }

  /** Written entries with clean timing and text lines read back renumbered 1..N. */
  lemma {:induction false} RenderRoundTrip(es: seq<Entry>)
    requires forall k :: 0 <= k < |es| ==> CleanField(es[k].timestamp) && CleanField(es[k].text)
    ensures ReadEntries(Render(es)) == Renumber(es)
  {
    if |es| == 0 {
      RenderNothing(es);
    } else {
      var blocks := seq(|es|, k requires 0 <= k < |es| => Join(EntryLines(k + 1, es[k]), "\n"));
      RenderShape(es);
      forall k | 0 <= k < |es|
        ensures SeparableBlock(blocks[k]) && ReadEntry(blocks[k]) == Some(Renumber(es)[k])
      {
        EntryBlockReads(k + 1, es[k]);
      }
      ReadBackBlocks(Render(es), blocks, Renumber(es));
    }
  }

  lemma {:induction false} RenderNothing(es: seq<Entry>)
    requires |es| == 0
    ensures ReadEntries(Render(es)) == Renumber(es)
  {
    assert Render(es) == "";
    assert Strip("") == "";
    MatcherBlankSep();
    assert FirstMatch("", BlankSepLen) == 0;
    assert SplitBlank("") == [""];
    assert ReadEntry("") == None;
  }

  /** Separable blocks joined by an empty line, plus a final newline, read back block by block. */
  lemma {:induction false} ReadBackBlocks(out: string, blocks: seq<string>, es: seq<Entry>)
    requires |blocks| == |es| > 0
    requires out == Join(blocks, "\n\n") + "\n"
    requires forall k :: 0 <= k < |blocks| ==> SeparableBlock(blocks[k]) && ReadEntry(blocks[k]) == Some(es[k])
    ensures ReadEntries(out) == es
  {
    var joined := Join(blocks, "\n\n");
    JoinFirstChar(blocks);
    JoinLastChar(blocks, "\n\n");
    StripFinalNewline(joined);
    SplitBlankOfJoin(blocks);
    EntriesOfBlocks(blocks, es);
  }

  // ---------------------------------------------------------------------------
  // Proofs: the whole pass
  // ---------------------------------------------------------------------------

  /** With ten dots or more, every written entry is an input entry verbatim. */
  lemma {:induction false} GatedEntriesVerbatim(es: seq<Entry>, dots: nat)
    requires dots >= 10
    ensures forall e :: e in PassEntries(es, dots) ==> e in es
  {
    DedupTexts(es, None);
  }

  /** `e` is `src` with both rules applied: same index and timing lines, same text up to whitespace and commas. */
  predicate PunctuatedFrom(e: Entry, src: Entry) {
    e == Punctuate(src) && e.num == src.num && e.timestamp == src.timestamp && Visible(e.text) == Visible(src.text)
  }

  /** Below ten dots, every written entry is an input entry with both rules applied: same index
      and timing lines, and the same text up to whitespace and commas. */
  lemma {:induction false} UngatedEntriesPunctuated(es: seq<Entry>, dots: nat)
    requires dots < 10
    ensures forall e :: e in PassEntries(es, dots) ==> exists k :: 0 <= k < |es| && PunctuatedFrom(e, es[k])
  {
    var ps := PunctuateAll(es);
    DedupTexts(ps, None);
    forall e | e in PassEntries(es, dots)
      ensures exists k :: 0 <= k < |es| && PunctuatedFrom(e, es[k])
    {
      var k :| 0 <= k < |ps| && ps[k] == e;
      PunctuateVisible(es[k]);
      assert PunctuatedFrom(e, es[k]);
    }
  }

  /** The written entries never repeat a text twice in a row, whichever branch ran. */
  lemma {:induction false} PassNoAdjacent(es: seq<Entry>, dots: nat)
    ensures NoAdjacentRepeat(PassEntries(es, dots))
  {
    DedupNoAdjacent(es);
    DedupNoAdjacent(PunctuateAll(es));
  }
}
