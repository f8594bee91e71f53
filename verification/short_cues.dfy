/**
 * The second cleaning stage (`spaceSrt_cleaner2.py`): dropping cues shorter
 * than a minimum duration, and fusing cues separated by a small gap.
 *
 * Both passes cut the stripped file with `re.split(r'\n\s*\n', …)`, read each
 * block as its stripped lines, and recognise a cue by at least three lines of
 * which the second starts with `HH:MM:SS,mmm --> HH:MM:SS,mmm`.
 */
module ShortCues {
  import opened Wrappers
  import opened Text
  import opened Decimal
  import opened Blocks
  import opened Timestamp
  import opened Srt

  /**
   * One block as the stage sees it: too few lines, a second line without the
   * timing, or a cue whose timestamps read as `startMs` and `endMs`.
   */
  datatype Block =
    | Short
    | Untimed
    | Timed(start: string, end: string, startMs: int, endMs: int, lines: seq<string>)

  /** Every timed block carries a well-formed timing and at least three single lines. */
  predicate WellTimed(b: Block) {
    b.Timed? ==> IsTimeStr(b.start) && IsTimeStr(b.end) && |b.lines| >= 3 && SingleLines(b.lines)
  }

  predicate AllWellTimed(bs: seq<Block>) {
    forall k :: 0 <= k < |bs| ==> WellTimed(bs[k])
  }

  /** The checks both passes make on one block. */
  function Classify(block: string): (b: Block)
    ensures WellTimed(b)
    ensures b.Timed? ==> ParseTimeToMs(b.start) == Some(b.startMs) && ParseTimeToMs(b.end) == Some(b.endMs)
    ensures b.Timed? ==> StrictTiming(b.lines[1]) == Some((b.start, b.end))
    ensures b.Timed? ==> b.lines == BlockLines(block)
    ensures b.Short? <==> |BlockLines(block)| < 3
    ensures b.Untimed? <==> |BlockLines(block)| >= 3 && StrictTiming(BlockLines(block)[1]).None?
  {
    var lines := BlockLines(block);
    if |lines| < 3 then Short
    else
      match StrictTiming(lines[1])
      case None => Untimed
      case Some(t) =>
        Timed(t.0, t.1, TimeValue(t.0), TimeValue(t.1), lines)
  }

  /** The blocks of a file, classified. */
  function ReadBlocks(content: string): (r: seq<Block>)
    ensures AllWellTimed(r)
  {
    var blocks := SplitBlank(Strip(content));
    seq(|blocks|, k requires 0 <= k < |blocks| => Classify(blocks[k]))
  }

  // ---------------------------------------------------------------------------
  // filter_srt
  // ---------------------------------------------------------------------------

  predicate LongEnough(b: Block, minDur: int) {
    b.Timed? && b.endMs - b.startMs >= minDur
  }

  /**
   * The kept cues' lines after the index line: the timing line verbatim, then
   * the text lines.
   */
  function Kept(bs: seq<Block>, minDur: int): (r: seq<seq<string>>)
    requires AllWellTimed(bs)
    ensures |r| <= |bs|
    ensures forall k :: 0 <= k < |r| ==> |r[k]| >= 2 && SingleLines(r[k])
    decreases |bs|
  {
    if |bs| == 0 then []
    else
      var rest := Kept(bs[1..], minDur);
      if LongEnough(bs[0], minDur) then [bs[0].lines[1..]] + rest else rest
  }

  /** `filter_srt` on the file contents, with the index lines rewritten 1..N. */
  function FilterSrt(content: string, minDur: int): (r: string)
    ensures r == "" <==> |Kept(ReadBlocks(content), minDur)| == 0
  {
    NumberedJoinEmpty(Kept(ReadBlocks(content), minDur), 1, "\n\n");
    Join(Numbered(Kept(ReadBlocks(content), minDur), 1), "\n\n")
  }

  /** Filtering distributes over concatenation: it keeps the cues it keeps, in order. */
  lemma {:induction false} KeptAppend(a: seq<Block>, b: seq<Block>, minDur: int)
    requires AllWellTimed(a) && AllWellTimed(b)
    ensures AllWellTimed(a + b)
    ensures Kept(a + b, minDur) == Kept(a, minDur) + Kept(b, minDur)
    decreases |a|
  {
    if |a| == 0 {
      assert a + b == b;
    } else {
      assert (a + b)[1..] == a[1..] + b;
      KeptAppend(a[1..], b, minDur);
    }
  }

  /** A single block is kept exactly when it is a cue lasting at least `minDur`, and then without its index line. */
  lemma {:induction false} KeptOne(b: Block, minDur: int)
    requires WellTimed(b)
    ensures |Kept([b], minDur)| == if LongEnough(b, minDur) then 1 else 0
    ensures LongEnough(b, minDur) ==> Kept([b], minDur)[0] == b.lines[1..]
  {
    assert [b][1..] == [];
  }

  /** Output block k of `filter_srt` is numbered k + 1 and holds the k-th kept cue's lines unchanged. */
  lemma {:induction false} FilterNumbering(bs: seq<Block>, minDur: int, k: nat)
    requires AllWellTimed(bs)
    requires k < |Kept(bs, minDur)|
    ensures Split(Numbered(Kept(bs, minDur), 1)[k], '\n') == [IntToString(k + 1)] + Kept(bs, minDur)[k]
    ensures ParseInt(Split(Numbered(Kept(bs, minDur), 1)[k], '\n')[0]) == Some(k + 1)
  {
    NumberedLines(Kept(bs, minDur), 1, k);
  }

  // ---------------------------------------------------------------------------
  // merge_consecutive_subtitles
  // ---------------------------------------------------------------------------

  /** A fused cue: the first member's start, the last member's end, all text lines in order. */
  datatype Cue = Cue(start: string, end: string, text: seq<string>)

  /** The text lines of the cues among `bs`, in order; other blocks contribute nothing. */
  function Texts(bs: seq<Block>): seq<string>
    requires AllWellTimed(bs)
    decreases |bs|
  {
    if |bs| == 0 then []
    else (if bs[0].Timed? then bs[0].lines[2..] else []) + Texts(bs[1..])
  }

  function CountTimed(bs: seq<Block>): (n: nat)
    ensures n <= |bs|
    decreases |bs|
  {
    if |bs| == 0 then 0 else (if bs[0].Timed? then 1 else 0) + CountTimed(bs[1..])
  }

  /** The end of the last cue among `bs`, or `(end, endMs)` when there is none. */
  function LastEnd(bs: seq<Block>, end: string, endMs: int): (string, int)
    decreases |bs|
  {
    if |bs| == 0 then (end, endMs)
    else if bs[0].Timed? then LastEnd(bs[1..], bs[0].end, bs[0].endMs)
    else LastEnd(bs[1..], end, endMs)
  }

  /**
   * The inner loop: how many of the following blocks join the running cue.
   * Short blocks are passed over, a block without a timing stops the scan,
   * and a cue joins while its start is at most `maxGap` after the running end.
   */
  function Absorb(rest: seq<Block>, endMs: int, maxGap: int): (n: nat)
    ensures n <= |rest|
    decreases |rest|
  {
    if |rest| == 0 then 0
    else
      match rest[0]
      case Short => 1 + Absorb(rest[1..], endMs, maxGap)
      case Untimed => 0
      case Timed(_, _, s, e, _) => if s - endMs <= maxGap then 1 + Absorb(rest[1..], e, maxGap) else 0
  }

  /** The outer loop of `merge_consecutive_subtitles`. */
  function MergeRun(bs: seq<Block>, maxGap: int): (r: seq<Cue>)
    requires AllWellTimed(bs)
    ensures |r| <= CountTimed(bs)
    ensures |r| == 0 <==> CountTimed(bs) == 0
    ensures forall k :: 0 <= k < |r| ==> IsTimeStr(r[k].start) && IsTimeStr(r[k].end) && SingleLines(r[k].text)
    decreases |bs|
  {
    if |bs| == 0 then []
    else
      match bs[0]
      case Timed(s, e, _, em, l) =>
        var n := Absorb(bs[1..], em, maxGap);
        var group := bs[1..1 + n];
        LastEndTimed(group, e, em);
        TextsSingle(group);
        CountTimedAppend(bs[..1 + n], bs[1 + n..]);
        assert bs == bs[..1 + n] + bs[1 + n..];
        [Cue(s, LastEnd(group, e, em).0, l[2..] + Texts(group))] + MergeRun(bs[1 + n..], maxGap)
      case _ =>
        MergeRun(bs[1..], maxGap)
  }

  /** The output lines of a fused cue after its index line. */
  function CueBody(c: Cue): seq<string> {
    [TimingLine(c.start, c.end)] + c.text
  }

  function CueBodies(cues: seq<Cue>): (r: seq<seq<string>>)
    ensures |r| == |cues|
    ensures forall k :: 0 <= k < |cues| ==> r[k] == CueBody(cues[k])
  {
    seq(|cues|, k requires 0 <= k < |cues| => CueBody(cues[k]))
  }

  /** `merge_consecutive_subtitles` on the file contents. */
  function MergeConsecutive(content: string, maxGap: int): (r: string)
    ensures r == "" <==> CountTimed(ReadBlocks(content)) == 0
  {
    NumberedJoinEmpty(CueBodies(MergeRun(ReadBlocks(content), maxGap)), 1, "\n\n");
    Join(Numbered(CueBodies(MergeRun(ReadBlocks(content), maxGap)), 1), "\n\n")
  }

  /** The concatenated text lines of the fused cues. */
  function CueTexts(cues: seq<Cue>): seq<string>
    decreases |cues|
  {
    if |cues| == 0 then [] else cues[0].text + CueTexts(cues[1..])
  }

  // ---------------------------------------------------------------------------
  // Proofs about the merge
  // ---------------------------------------------------------------------------

  lemma {:induction false} LastEndTimed(bs: seq<Block>, end: string, endMs: int)
    requires AllWellTimed(bs) && IsTimeStr(end)
    ensures IsTimeStr(LastEnd(bs, end, endMs).0)
    decreases |bs|
  {
    if |bs| > 0 {
      if bs[0].Timed? {
        LastEndTimed(bs[1..], bs[0].end, bs[0].endMs);
      } else {
        LastEndTimed(bs[1..], end, endMs);
      }
    }
  }

  lemma {:induction false} TextsSingle(bs: seq<Block>)
    requires AllWellTimed(bs)
    ensures SingleLines(Texts(bs))
    decreases |bs|
  {
    if |bs| > 0 {
      TextsSingle(bs[1..]);
    }
  }

  lemma {:induction false} TextsAppend(a: seq<Block>, b: seq<Block>)
    requires AllWellTimed(a) && AllWellTimed(b)
    ensures AllWellTimed(a + b)
    ensures Texts(a + b) == Texts(a) + Texts(b)
    decreases |a|
  {
    if |a| == 0 {
      assert a + b == b;
    } else {
      assert (a + b)[1..] == a[1..] + b;
      TextsAppend(a[1..], b);
    }
  }

  lemma {:induction false} CountTimedAppend(a: seq<Block>, b: seq<Block>)
    ensures CountTimed(a + b) == CountTimed(a) + CountTimed(b)
    decreases |a|
  {
    if |a| == 0 {
      assert a + b == b;
    } else {
      assert (a + b)[1..] == a[1..] + b;
      CountTimedAppend(a[1..], b);
    }
  }

  /**
   * Fusing loses and invents no text: the fused cues' text lines, in order,
   * are exactly the text lines of the input cues.  Blocks with fewer than
   * three lines or without a timing contribute nothing.
   */
  lemma {:induction false} MergeKeepsText(bs: seq<Block>, maxGap: int)
    requires AllWellTimed(bs)
    ensures CueTexts(MergeRun(bs, maxGap)) == Texts(bs)
    decreases |bs|
  {
    if |bs| > 0 {
      if bs[0].Timed? {
        var n := Absorb(bs[1..], bs[0].endMs, maxGap);
        MergeKeepsText(bs[1 + n..], maxGap);
        MergeKeepsTextStep(bs, maxGap, n);
      } else {
        MergeKeepsText(bs[1..], maxGap);
      }
    }
  }

  /** One fused cue: its text is the head's text and that of the absorbed group. */
  lemma {:induction false} MergeKeepsTextStep(bs: seq<Block>, maxGap: int, n: nat)
    requires AllWellTimed(bs) && |bs| > 0 && bs[0].Timed?
    requires n == Absorb(bs[1..], bs[0].endMs, maxGap)
    requires CueTexts(MergeRun(bs[1 + n..], maxGap)) == Texts(bs[1 + n..])
    ensures CueTexts(MergeRun(bs, maxGap)) == Texts(bs)
  {
    var c := MergeRunHead(bs, maxGap, n);
    CueTextsCons(c, MergeRun(bs[1 + n..], maxGap));
    TextsSplit(bs, n);
  }

  /** The outer loop's step on a cue: the fused cue, then the merge of what follows the group. */
  lemma {:induction false} MergeRunHead(bs: seq<Block>, maxGap: int, n: nat) returns (c: Cue)
    requires AllWellTimed(bs) && |bs| > 0 && bs[0].Timed?
    requires n == Absorb(bs[1..], bs[0].endMs, maxGap)
    ensures c.start == bs[0].start && c.end == LastEnd(bs[1..1 + n], bs[0].end, bs[0].endMs).0
    ensures c.text == bs[0].lines[2..] + Texts(bs[1..1 + n])
    ensures MergeRun(bs, maxGap) == [c] + MergeRun(bs[1 + n..], maxGap)
  {
    var group := bs[1..1 + n];
    c := Cue(bs[0].start, LastEnd(group, bs[0].end, bs[0].endMs).0, bs[0].lines[2..] + Texts(group));
  }

  lemma {:induction false} CueTextsCons(c: Cue, cues: seq<Cue>)
    ensures CueTexts([c] + cues) == c.text + CueTexts(cues)
  {
    assert ([c] + cues)[1..] == cues;
  }

  /** The texts of a cue, its absorbed group and the remainder, in order. */
  lemma {:induction false} TextsSplit(bs: seq<Block>, n: nat)
    requires AllWellTimed(bs) && |bs| > 0 && bs[0].Timed? && n < |bs|
    ensures AllWellTimed(bs[1..1 + n]) && AllWellTimed(bs[1 + n..])
    ensures Texts(bs) == bs[0].lines[2..] + Texts(bs[1..1 + n]) + Texts(bs[1 + n..])
  {
    assert bs[1..] == bs[1..1 + n] + bs[1 + n..];
    TextsAppend(bs[1..1 + n], bs[1 + n..]);
  }

  /** The end of the running cue after the first `k` following blocks have joined. */
  function RunningEnd(rest: seq<Block>, k: nat, endMs: int): int
    requires k <= |rest|
  {
    LastEnd(rest[..k], "", endMs).1
  }

  lemma {:induction false} RunningEndStep(rest: seq<Block>, k: nat, endMs: int)
    requires 1 <= k <= |rest|
    ensures RunningEnd(rest, k, endMs)
         == RunningEnd(rest[1..], k - 1, if rest[0].Timed? then rest[0].endMs else endMs)
  {
    assert rest[..k][1..] == rest[1..][..k - 1];
    LastEndIgnoresName(rest[1..][..k - 1], rest[0], endMs);
  }

  lemma {:induction false} LastEndIgnoresName(bs: seq<Block>, b: Block, endMs: int)
    ensures b.Timed? ==> LastEnd(bs, b.end, b.endMs).1 == LastEnd(bs, "", b.endMs).1
    ensures !b.Timed? ==> LastEnd(bs, "", endMs).1 == LastEnd(bs, "", endMs).1
  {
    if b.Timed? {
      LastEndMsOnly(bs, b.end, "", b.endMs);
    }
  }

  lemma {:induction false} LastEndMsOnly(bs: seq<Block>, e1: string, e2: string, endMs: int)
    ensures LastEnd(bs, e1, endMs).1 == LastEnd(bs, e2, endMs).1
    decreases |bs|
  {
    if |bs| > 0 && !bs[0].Timed? {
      LastEndMsOnly(bs[1..], e1, e2, endMs);
    }
  }

  /**
   * What the inner loop takes in: no block without a timing, and every cue
   * starts at most `maxGap` after the running end; it stops at the end of the
   * input, at a block without a timing, or at a cue starting later than that.
   */
  lemma {:induction false} AbsorbSpec(rest: seq<Block>, endMs: int, maxGap: int)
    ensures var n := Absorb(rest, endMs, maxGap);
      && (forall k :: 0 <= k < n ==> !rest[k].Untimed?)
      && (forall k :: 0 <= k < n && rest[k].Timed? ==> rest[k].startMs - RunningEnd(rest, k, endMs) <= maxGap)
      && (n < |rest| ==> rest[n].Untimed? || (rest[n].Timed? && rest[n].startMs - RunningEnd(rest, n, endMs) > maxGap))
    decreases |rest|
  {
    var n := Absorb(rest, endMs, maxGap);
    if |rest| > 0 && n > 0 {
      var e' := if rest[0].Timed? then rest[0].endMs else endMs;
      AbsorbSpec(rest[1..], e', maxGap);
      assert n == 1 + Absorb(rest[1..], e', maxGap);
      forall k | 1 <= k <= n
        ensures RunningEnd(rest, k, endMs) == RunningEnd(rest[1..], k - 1, e')
      {
        RunningEndStep(rest, k, endMs);
      }
      assert RunningEnd(rest, 0, endMs) == endMs;
    } else if |rest| > 0 {
      assert RunningEnd(rest, 0, endMs) == endMs;
    }
  }

  /** A fused cue's body lines are single lines whose first is a strict timing line. */
  lemma {:induction false} CueBodyLines(c: Cue)
    requires IsTimeStr(c.start) && IsTimeStr(c.end) && SingleLines(c.text)
    ensures SingleLines(CueBody(c))
    ensures StrictTiming(CueBody(c)[0]) == Some((c.start, c.end))
  {
    TimingLineRoundTrip(c.start, c.end);
    var body := CueBody(c);
    assert forall j :: 1 <= j < |body| ==> body[j] == c.text[j - 1];
  }

  /** Output block k of numbered cues is numbered k + 1 and reads back as the cue's body. */
  lemma {:induction false} NumberedCue(cues: seq<Cue>, k: nat)
    requires k < |cues|
    requires IsTimeStr(cues[k].start) && IsTimeStr(cues[k].end) && SingleLines(cues[k].text)
    ensures Split(Numbered(CueBodies(cues), 1)[k], '\n') == [IntToString(k + 1)] + CueBody(cues[k])
    ensures ParseInt(IntToString(k + 1)) == Some(k + 1)
  {
    var bodies := CueBodies(cues);
    assert bodies[k] == CueBody(cues[k]);
    CueBodyLines(cues[k]);
    NumberedLines(bodies, 1, k);
    ParseIntOfIntToString(k + 1);
  }

  /**
   * Output block k of the merge is numbered k + 1, is followed by a timing
   * line the strict matcher reads back as the fused cue's start and end, and
   * then the fused text.
   */
  lemma {:induction false} MergeNumbering(bs: seq<Block>, maxGap: int, k: nat)
    requires AllWellTimed(bs)
    requires k < |MergeRun(bs, maxGap)|
    ensures var c := MergeRun(bs, maxGap)[k];
      && Split(Numbered(CueBodies(MergeRun(bs, maxGap)), 1)[k], '\n') == [IntToString(k + 1)] + CueBody(c)
      && ParseInt(IntToString(k + 1)) == Some(k + 1)
      && StrictTiming(CueBody(c)[0]) == Some((c.start, c.end))
      && CueBody(c)[1..] == c.text
  {
    var cues := MergeRun(bs, maxGap);
    NumberedCue(cues, k);
    CueBodyLines(cues[k]);
  }

  // ---------------------------------------------------------------------------
  // The timing of the fused cues
  // ---------------------------------------------------------------------------

  /** With no cue among `bs`, the running end is the one the scan started from. */
  lemma {:induction false} LastEndNone(bs: seq<Block>, end: string, endMs: int)
    requires forall j :: 0 <= j < |bs| ==> !bs[j].Timed?
    ensures LastEnd(bs, end, endMs) == (end, endMs)
    decreases |bs|
  {
    if |bs| > 0 {
      LastEndNone(bs[1..], end, endMs);
    }
  }

  /** Otherwise it is the end of the last cue among `bs`. */
  lemma {:induction false} LastEndAt(bs: seq<Block>, end: string, endMs: int, i: nat)
    requires i < |bs| && bs[i].Timed?
    requires forall j :: i < j < |bs| ==> !bs[j].Timed?
    ensures LastEnd(bs, end, endMs) == (bs[i].end, bs[i].endMs)
    decreases |bs|
  {
    if i == 0 {
      LastEndNone(bs[1..], bs[0].end, bs[0].endMs);
    } else if bs[0].Timed? {
      LastEndAt(bs[1..], bs[0].end, bs[0].endMs, i - 1);
    } else {
      LastEndAt(bs[1..], end, endMs, i - 1);
    }
  }

  /**
   * Where the fused cues come from, scanning from position `i`: for each, the
   * position of the cue that opens it and how many following blocks it absorbs.
   */
  function RunsFrom(bs: seq<Block>, i: nat, maxGap: int): (r: seq<(nat, nat)>)
    requires i <= |bs|
    ensures forall k :: 0 <= k < |r| ==> i <= r[k].0 && r[k].0 + 1 + r[k].1 <= |bs|
    decreases |bs| - i
  {
    if i == |bs| then []
    else if bs[i].Timed? then
      var n := Absorb(bs[i + 1..], bs[i].endMs, maxGap);
      [(i, n)] + RunsFrom(bs, i + 1 + n, maxGap)
    else RunsFrom(bs, i + 1, maxGap)
  }

  /**
   * The cue `c` fuses the cue at `h` with the `n` blocks after it, as the
   * inner loop decides: it opens with that cue's start, closes with the end
   * of the last cue absorbed (or its own end when none is), and holds all
   * their text lines in order.
   */
  predicate FusedAt(bs: seq<Block>, maxGap: int, c: Cue, h: nat, n: nat)
    requires AllWellTimed(bs)
  {
    && h + 1 + n <= |bs| && bs[h].Timed?
    && n == Absorb(bs[h + 1..], bs[h].endMs, maxGap)
    && c.start == bs[h].start
    && c.end == LastEnd(bs[h + 1..h + 1 + n], bs[h].end, bs[h].endMs).0
    && c.text == bs[h].lines[2..] + Texts(bs[h + 1..h + 1 + n])
  }

  /** No cue among the blocks at positions `a` up to `b`. */
  predicate NoCueIn(bs: seq<Block>, a: nat, b: nat) {
    forall j :: a <= j < b && j < |bs| ==> !bs[j].Timed?
  }

  /** Position just past a run. */
  function RunEnd(run: (nat, nat)): nat {
    run.0 + 1 + run.1
  }

  /** Each cue of `cs` is fused from the run at the same place in `rs`. */
  predicate AllFused(bs: seq<Block>, maxGap: int, cs: seq<Cue>, rs: seq<(nat, nat)>)
    requires AllWellTimed(bs)
    decreases |cs|
  {
    |cs| == |rs| && (|cs| > 0 ==> FusedAt(bs, maxGap, cs[0], rs[0].0, rs[0].1) && AllFused(bs, maxGap, cs[1..], rs[1..]))
  }

  lemma {:induction false} AllFusedAt(bs: seq<Block>, maxGap: int, cs: seq<Cue>, rs: seq<(nat, nat)>, k: nat)
    requires AllWellTimed(bs) && AllFused(bs, maxGap, cs, rs) && k < |cs|
    ensures |cs| == |rs| && FusedAt(bs, maxGap, cs[k], rs[k].0, rs[k].1)
    decreases k
  {
    if k > 0 {
      AllFusedAt(bs, maxGap, cs[1..], rs[1..], k - 1);
    }
  }

  /** The runs are in order, do not overlap, and no cue from `i` on lies outside them. */
  predicate RunsLaidOut(bs: seq<Block>, i: nat, rs: seq<(nat, nat)>) {
    && (forall k :: 0 <= k < |rs| - 1 ==> RunEnd(rs[k]) <= rs[k + 1].0 && NoCueIn(bs, RunEnd(rs[k]), rs[k + 1].0))
    && NoCueIn(bs, i, if |rs| == 0 then |bs| else rs[0].0)
    && (|rs| > 0 ==> NoCueIn(bs, RunEnd(rs[|rs| - 1]), |bs|))
  }

  lemma {:induction false} WellTimedSuffix(bs: seq<Block>, i: nat)
    requires AllWellTimed(bs) && i <= |bs|
    ensures AllWellTimed(bs[i..])
  {
    assert forall k :: 0 <= k < |bs| - i ==> bs[i..][k] == bs[i + k];
  }

  /** The fused cue the merge of `bs[i..]` opens with, when a cue stands at `i`. */
  lemma {:induction false} FusedHead(bs: seq<Block>, i: nat, maxGap: int) returns (c: Cue, n: nat)
    requires AllWellTimed(bs) && i < |bs| && bs[i].Timed?
    ensures n == Absorb(bs[i + 1..], bs[i].endMs, maxGap) && i + 1 + n <= |bs|
    ensures AllWellTimed(bs[i..]) && AllWellTimed(bs[i + 1 + n..])
    ensures MergeRun(bs[i..], maxGap) == [c] + MergeRun(bs[i + 1 + n..], maxGap)
    ensures FusedAt(bs, maxGap, c, i, n)
  {
    WellTimedSuffix(bs, i);
    WellTimedSuffix(bs, i + 1);
    var t := bs[i..];
    n := Absorb(bs[i + 1..], bs[i].endMs, maxGap);
    WellTimedSuffix(bs, i + 1 + n);
    assert t[1..] == bs[i + 1..];
    c := MergeRunHead(t, maxGap, n);
    assert t[1 + n..] == bs[i + 1 + n..];
    assert t[1..1 + n] == bs[i + 1..i + 1 + n];
  }

  /** The merge of `bs[i..]` passes over a block at `i` that is not a cue. */
  lemma {:induction false} SkipHead(bs: seq<Block>, i: nat, maxGap: int)
    requires AllWellTimed(bs) && i < |bs| && !bs[i].Timed?
    ensures AllWellTimed(bs[i..]) && AllWellTimed(bs[i + 1..])
    ensures MergeRun(bs[i..], maxGap) == MergeRun(bs[i + 1..], maxGap)
  {
    WellTimedSuffix(bs, i);
    WellTimedSuffix(bs, i + 1);
    assert bs[i..][1..] == bs[i + 1..];
  }

  /** The merge from position `i` on yields one fused cue per run, each fused as the loops decide. */
  lemma {:induction false} MergeRunFrom(bs: seq<Block>, i: nat, maxGap: int)
    requires AllWellTimed(bs) && i <= |bs|
    ensures AllWellTimed(bs[i..])
    ensures AllFused(bs, maxGap, MergeRun(bs[i..], maxGap), RunsFrom(bs, i, maxGap))
    decreases |bs| - i, 1
  {
    WellTimedSuffix(bs, i);
    if i < |bs| {
      if bs[i].Timed? {
        MergeRunFromCue(bs, i, maxGap);
      } else {
        SkipHead(bs, i, maxGap);
        MergeRunFrom(bs, i + 1, maxGap);
        assert RunsFrom(bs, i, maxGap) == RunsFrom(bs, i + 1, maxGap);
      }
    }
  }

  lemma {:induction false} MergeRunFromCue(bs: seq<Block>, i: nat, maxGap: int)
    requires AllWellTimed(bs) && i < |bs| && bs[i].Timed?
    ensures AllWellTimed(bs[i..])
    ensures AllFused(bs, maxGap, MergeRun(bs[i..], maxGap), RunsFrom(bs, i, maxGap))
    decreases |bs| - i, 0
  {
    var c, n := FusedHead(bs, i, maxGap);
    var j := i + 1 + n;
    RunsFromCue(bs, i, n, maxGap);
    MergeRunFrom(bs, j, maxGap);
    FusedCons(bs, maxGap, c, i, n, MergeRun(bs[j..], maxGap), RunsFrom(bs, j, maxGap),
              MergeRun(bs[i..], maxGap), RunsFrom(bs, i, maxGap));
  }

  /** The runs from a cue at `i`: its own, then those after the `n` blocks it absorbs. */
  lemma {:induction false} RunsFromCue(bs: seq<Block>, i: nat, n: nat, maxGap: int)
    requires i < |bs| && bs[i].Timed? && n == Absorb(bs[i + 1..], bs[i].endMs, maxGap)
    ensures i + 1 + n <= |bs|
    ensures RunsFrom(bs, i, maxGap) == [(i, n)] + RunsFrom(bs, i + 1 + n, maxGap)
  {
  }

  lemma {:induction false} FusedCons(bs: seq<Block>, maxGap: int, c: Cue, h: nat, n: nat, cs: seq<Cue>, rs: seq<(nat, nat)>,
                                     cs': seq<Cue>, rs': seq<(nat, nat)>)
    requires AllWellTimed(bs) && FusedAt(bs, maxGap, c, h, n) && AllFused(bs, maxGap, cs, rs)
    requires cs' == [c] + cs && rs' == [(h, n)] + rs
    ensures AllFused(bs, maxGap, cs', rs')
  {
    assert cs'[1..] == cs && rs'[1..] == rs;
  }

  /** The runs from position `i` on tile the blocks with no cue left outside them. */
  lemma {:induction false} RunsFromLaidOut(bs: seq<Block>, i: nat, maxGap: int)
    requires i <= |bs|
    ensures RunsLaidOut(bs, i, RunsFrom(bs, i, maxGap))
    decreases |bs| - i, 1
  {
    if i < |bs| {
      if bs[i].Timed? {
        RunsFromLaidOutCue(bs, i, maxGap);
      } else {
        RunsFromLaidOut(bs, i + 1, maxGap);
        assert RunsFrom(bs, i, maxGap) == RunsFrom(bs, i + 1, maxGap);
      }
    }
  }

  lemma {:induction false} RunsFromLaidOutCue(bs: seq<Block>, i: nat, maxGap: int)
    requires i < |bs| && bs[i].Timed?
    ensures RunsLaidOut(bs, i, RunsFrom(bs, i, maxGap))
    decreases |bs| - i, 0
  {
    var n := Absorb(bs[i + 1..], bs[i].endMs, maxGap);
    RunsFromLaidOut(bs, i + 1 + n, maxGap);
    var rest := RunsFrom(bs, i + 1 + n, maxGap);
    assert RunsFrom(bs, i, maxGap) == [(i, n)] + rest;
    LaidOutCons(bs, i, n, rest);
  }

  lemma {:induction false} LaidOutCons(bs: seq<Block>, i: nat, n: nat, rs: seq<(nat, nat)>)
    requires RunsLaidOut(bs, i + 1 + n, rs)
    requires forall k :: 0 <= k < |rs| ==> i + 1 + n <= rs[k].0
    ensures RunsLaidOut(bs, i, [(i, n)] + rs)
  {
    var all := [(i, n)] + rs;
    forall k | 0 <= k < |all| - 1
      ensures RunEnd(all[k]) <= all[k + 1].0 && NoCueIn(bs, RunEnd(all[k]), all[k + 1].0)
    {
      if k > 0 {
        assert all[k] == rs[k - 1] && all[k + 1] == rs[k];
      }
    }
    assert all[|all| - 1] == if |rs| == 0 then (i, n) else rs[|rs| - 1];
  }

  /**
   * Every fused cue k opens with the start of the cue that begins its run and
   * closes with the end of the last cue it absorbed, or that cue's own end
   * when it absorbed none; the runs follow one another in order, and every
   * cue of the input opens a run or is absorbed by one.
   */
  lemma {:induction false} MergeTiming(bs: seq<Block>, maxGap: int)
    requires AllWellTimed(bs)
    ensures var rs := RunsFrom(bs, 0, maxGap);
      && |MergeRun(bs, maxGap)| == |rs|
      && (forall k :: 0 <= k < |rs| ==> FusedAt(bs, maxGap, MergeRun(bs, maxGap)[k], rs[k].0, rs[k].1))
      && RunsLaidOut(bs, 0, rs)
  {
    MergeRunFrom(bs, 0, maxGap);
    assert bs[0..] == bs;
    var cs, rs := MergeRun(bs, maxGap), RunsFrom(bs, 0, maxGap);
    forall k | 0 <= k < |rs|
      ensures FusedAt(bs, maxGap, cs[k], rs[k].0, rs[k].1)
    {
      AllFusedAt(bs, maxGap, cs, rs, k);
    }
    RunsFromLaidOut(bs, 0, maxGap);
  }
}
