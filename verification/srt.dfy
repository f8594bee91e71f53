/**
 * What the stages share about SubRip cue blocks: a block read as its
 * stripped lines, and renumbered output blocks `n\ntiming\ntext…` whose
 * index lines count up from a given number.
 */
module Srt {
  import opened Wrappers
  import opened Text
  import opened Decimal
  import opened Timestamp

  /**
   * A cue as the `srt` library parses it: index, start and end times (kept
   * as the parser delivers them) and the text content.
   */
  datatype Subtitle = Subtitle(index: int, start: int, end: int, content: string)

  /** A cue kept as its number line, its timing line and its text, all as read. */
  datatype Entry = Entry(num: string, timestamp: string, text: string)

  /** `block.strip().split('\n')`. */
  function BlockLines(block: string): (r: seq<string>)
    ensures |r| >= 1
    ensures forall k :: 0 <= k < |r| ==> !HasChar(r[k], '\n')
  {
    Split(Strip(block), '\n')
  }

  /** A blank block reads as the single empty line. */
  lemma {:induction false} BlankBlockShort(block: string)
    requires IsBlank(block)
    ensures |BlockLines(block)| == 1
  {
    assert Strip(block) == "";
    assert IndexOfChar("", '\n') == 0;
    assert Split("", '\n') == [""];
  }

  predicate SingleLines(lines: seq<string>) {
    forall k :: 0 <= k < |lines| ==> !HasChar(lines[k], '\n')
  }

  /** A line that starts and ends with a visible character. */
  predicate VisibleLine(line: string) {
    |line| > 0 && !IsSpace(line[0]) && !IsSpace(line[|line| - 1])
  }

  /** A printed number is one visible line. */
  lemma {:induction false} NumberVisible(n: int)
    ensures VisibleLine(IntToString(n)) && !HasChar(IntToString(n), '\n')
  {
    IntToStringSingle(n);
    var r := IntToString(n);
    if n < 0 {
      assert r[|r| - 1] == r[1..][|r| - 2];
    }
  }

  /** Every piece followed by an empty line. */
  function Terminated(parts: seq<string>): (r: seq<string>)
    ensures |r| == |parts|
  {
    seq(|parts|, k requires 0 <= k < |parts| => parts[k] + "\n\n")
  }

  /** The written file is the bodies joined by empty lines, plus one final empty line. */
  lemma {:induction false} TerminatedConcat(parts: seq<string>)
    requires |parts| >= 1
    ensures Concat(Terminated(parts)) == Join(parts, "\n\n") + "\n\n"
    decreases |parts|
  {
    var t := Terminated(parts);
    if |parts| == 1 {
      assert t[1..] == [];
    } else {
      assert t[1..] == Terminated(parts[1..]);
      TerminatedConcat(parts[1..]);
    }
  }

  lemma {:induction false} StripTerminated(x: string)
    requires |x| > 0 && !IsSpace(x[0]) && !IsSpace(x[|x| - 1])
    ensures Strip(x + "\n\n") == x
  {
    var y := x + "\n\n";
    LStripNoLeadingSpace(y);
    assert y[..|y| - 1] == x + "\n";
    assert (x + "\n")[..|x|] == x;
    RStripNoTrailingSpace(x);
  }

  /** The block `str(n)` followed by the given lines, joined by newlines. */
  function NumberedBlock(n: int, body: seq<string>): string {
    Join([IntToString(n)] + body, "\n")
  }

  /** The bodies written as blocks numbered `first`, `first + 1`, … in order. */
  function Numbered(bodies: seq<seq<string>>, first: int): (r: seq<string>)
    ensures |r| == |bodies|
    ensures forall k :: 0 <= k < |bodies| ==> r[k] == NumberedBlock(first + k, bodies[k])
  {
    seq(|bodies|, k requires 0 <= k < |bodies| => NumberedBlock(first + k, bodies[k]))
  }

  /** Numbered blocks, joined, are empty exactly when there are none: every block holds its number. */
  lemma {:induction false} NumberedJoinEmpty(bodies: seq<seq<string>>, first: int, sep: string)
    ensures Join(Numbered(bodies, first), sep) == "" <==> |bodies| == 0
  {
    if |bodies| > 0 {
      var r := Numbered(bodies, first);
      var b := [IntToString(first)] + bodies[0];
      assert r[0] == Join(b, "\n");
      JoinHead(b, "\n");
      JoinHead(r, sep);
    }
  }

  lemma {:induction false} IntToStringSingle(n: int)
    ensures !HasChar(IntToString(n), '\n')
  {
    var r := IntToString(n);
    if n < 0 {
      assert forall j :: 1 <= j < |r| ==> r[j] == r[1..][j - 1];
    }
  }

  /** A numbered block reads back as its number and its lines. */
  lemma {:induction false} NumberedBlockLines(n: int, body: seq<string>)
    requires SingleLines(body)
    ensures Split(NumberedBlock(n, body), '\n') == [IntToString(n)] + body
    ensures ParseInt(Split(NumberedBlock(n, body), '\n')[0]) == Some(n)
  {
    IntToStringSingle(n);
    SplitOfJoin([IntToString(n)] + body, '\n');
    ParseIntOfIntToString(n);
  }

  /** Output block `k` carries the number `first + k` and exactly its body lines. */
  lemma {:induction false} NumberedLines(bodies: seq<seq<string>>, first: int, k: nat)
    requires k < |bodies| && SingleLines(bodies[k])
    ensures Split(Numbered(bodies, first)[k], '\n') == [IntToString(first + k)] + bodies[k]
    ensures ParseInt(Split(Numbered(bodies, first)[k], '\n')[0]) == Some(first + k)
  {
    NumberedBlockLines(first + k, bodies[k]);
  }

  /** The timing line `start --> end` the merging stages write. */
  function TimingLine(start: string, end: string): string {
    start + " --> " + end
  }

  /** A written timing line is read back by the strict matcher as the same two timestamps. */
  lemma {:induction false} TimingLineRoundTrip(start: string, end: string)
    requires IsTimeStr(start) && IsTimeStr(end)
    ensures StrictTiming(TimingLine(start, end)) == Some((start, end))
    ensures !HasChar(TimingLine(start, end), '\n')
  {
    var line := TimingLine(start, end);
    assert line[..12] == start;
    assert line[12..17] == " --> ";
    assert line[17..29] == end;
  }
}
