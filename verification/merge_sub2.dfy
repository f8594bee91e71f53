/**
 * The trailing-remainder migrator (`merge_Sub2.py`).
 *
 * Cues are read as (number, timing, text) triples with the text flattened to
 * one line.  Walking the cues in order, when one or two whitespace tokens
 * follow the last `. , ? !` of a cue's text and a next cue exists, those
 * tokens are cut off and put in front of the next cue's text.  The next cue
 * is examined afterwards with the text it received, so moves cascade.  The
 * cues are finally written back, each followed by an empty line.
 */
module TrailingWords {
  import opened Wrappers
  import opened Text
  import opened Blocks
  import opened Srt

  // ---------------------------------------------------------------------------
  // Reading
  // ---------------------------------------------------------------------------

  /** A block as a cue: at least three lines, the text being the later lines joined by spaces and stripped. */
  function ReadBlock(block: string): Option<Entry> {
    var lines := SplitLines(Strip(block));
    if |lines| >= 3 then Some(Entry(lines[0], lines[1], Strip(Join(lines[2..], " ")))) else None
  }

  /** Reads every block in order, dropping those `read` rejects. */
  function Collect(blocks: seq<string>, read: string -> Option<Entry>): (r: seq<Entry>)
    ensures |r| <= |blocks|
    decreases |blocks|
  {
    if |blocks| == 0 then []
    else
      var rest := Collect(blocks[1..], read);
      match read(blocks[0])
      case Some(e) => [e] + rest
      case None => rest
  }

  function ReadBlocks(blocks: seq<string>): (r: seq<Entry>)
    ensures |r| <= |blocks|
  {
    Collect(blocks, ReadBlock)
  }

  /** `split_srt_blocks`: the blocks between runs of two or more newlines, read as cues. */
  function SplitSrtBlocks(content: string): seq<Entry> {
    ReadBlocks(SplitNewlineRuns(Strip(content)))
  }

  // ---------------------------------------------------------------------------
  // Moving the trailing remainder
  // ---------------------------------------------------------------------------

  /** Position of the last `. , ? !` in `s`. */
  function LastMark(s: string): (r: Option<nat>)
    ensures r.Some? ==> r.value < |s| && IsBreakMark(s[r.value])
    decreases |s|
  {
    if |s| == 0 then None
    else if IsBreakMark(s[|s| - 1]) then Some(|s| - 1)
    else LastMark(s[..|s| - 1])
  }

  /** The tokens after position `p`, as `text[p + 1:].strip().split()`. */
  function Trailing(text: string, p: nat): seq<string>
    requires p < |text|
  {
    SplitWs(Strip(text[p + 1..]))
  }

  /** What a cue keeps of its text when it is cut after position `p`. */
  function Keep(text: string, p: nat): string
    requires p < |text|
  {
    Strip(text[..p + 1])
  }

  /** Where a cue's text is cut: its last mark, when one or two tokens follow it. */
  function CutOf(text: string): (r: Option<nat>)
    ensures r.Some? ==> r.value < |text|
  {
    match LastMark(text)
    case None => None
    case Some(p) => if 0 < |Trailing(text, p)| <= 2 then Some(p) else None
  }

  /** The next cue's text once the moved tokens are put in front of it. */
  function Received(words: seq<string>, next: string): string {
    Strip(Join(words, " ") + " " + next)
  }

  /** The next cue after it received the moved tokens. */
  function Give(words: seq<string>, next: Entry): Entry {
    next.(text := Received(words, next.text))
  }

  /**
   * `process_blocks`: each cue in turn gives its trailing tokens to the next
   * one, which is then examined with what it received.
   */
  function ProcessBlocks(bs: seq<Entry>): (r: seq<Entry>)
    ensures SameFrame(r, bs)
    decreases |bs|
  {
    if |bs| <= 1 then bs
    else
      match CutOf(bs[0].text)
      case None =>
        var rest := ProcessBlocks(bs[1..]);
        FrameCons(bs[0], rest, bs[0], bs[1..]);
        assert [bs[0]] + bs[1..] == bs;
        [bs[0]] + rest
      case Some(p) =>
        var t := bs[0].text;
        var g := Give(Trailing(t, p), bs[1]);
        var rtail := ProcessBlocks([g] + bs[2..]);
        GiveFrame(g, bs);
        FrameTrans(rtail, [g] + bs[2..], bs[1..]);
        FrameAssemble(bs, bs[0].(text := Keep(t, p)), rtail);
        [bs[0].(text := Keep(t, p))] + rtail
  }

  /** The texts of the cues, in order. */
  function Texts(bs: seq<Entry>): (r: seq<string>)
    ensures |r| == |bs|
    ensures forall k :: 0 <= k < |bs| ==> r[k] == bs[k].text
  {
    seq(|bs|, k requires 0 <= k < |bs| => bs[k].text)
  }

  // ---------------------------------------------------------------------------
  // Writing
  // ---------------------------------------------------------------------------

  /** The lines one cue is written as: number, timing, the text's lines, and an empty line. */
  function CueLines(e: Entry): seq<string> {
    [e.num, e.timestamp] + Split(Strip(e.text), '\n') + [""]
  }

  function AllLines(es: seq<Entry>): seq<string>
    decreases |es|
  {
    if |es| == 0 then [] else CueLines(es[0]) + AllLines(es[1..])
  }

  /** `rebuild_srt`. */
  function RebuildSrt(es: seq<Entry>): (r: string)
    ensures |es| > 0 && (forall k :: 0 <= k < |es| ==> OneLine(es[k])) ==> Split(r, '\n') == AllLines(es)
  {
    RebuildLines(es);
    Join(AllLines(es), "\n")
  }

  // ---------------------------------------------------------------------------
  // Properties of reading
  // ---------------------------------------------------------------------------

  /**
   * A block is kept exactly when it has at least three lines; its number and
   * timing are the first two lines, and its text is stripped and holds exactly
   * the non-space characters of the remaining lines.
   */
  lemma {:induction false} ReadBlockSpec(block: string)
    ensures var lines := SplitLines(Strip(block));
      && (ReadBlock(block).Some? <==> |lines| >= 3)
      && (ReadBlock(block).Some? ==>
            && ReadBlock(block).value.num == lines[0]
            && ReadBlock(block).value.timestamp == lines[1]
            && Strip(ReadBlock(block).value.text) == ReadBlock(block).value.text
            && Squash(ReadBlock(block).value.text) == SquashAll(lines[2..]))
  {
    var lines := SplitLines(Strip(block));
    if |lines| >= 3 {
      var j := Join(lines[2..], " ");
      StripIdempotent(j);
      SquashStrip(j);
      SquashJoinSpace(lines[2..]);
    }
  }

  /** Reading is block by block: reading two runs of blocks reads each in turn. */
  lemma {:induction false} ReadBlocksAppend(a: seq<string>, b: seq<string>)
    ensures ReadBlocks(a + b) == ReadBlocks(a) + ReadBlocks(b)
  {
    CollectAppend(a, b, ReadBlock);
  }

  lemma {:induction false} CollectAppend(a: seq<string>, b: seq<string>, read: string -> Option<Entry>)
    ensures Collect(a + b, read) == Collect(a, read) + Collect(b, read)
    decreases |a|
  {
    if |a| == 0 {
      assert a + b == b;
    } else {
      assert (a + b)[0] == a[0];
      assert (a + b)[1..] == a[1..] + b;
      CollectAppend(a[1..], b, read);
    }
  }

  // ---------------------------------------------------------------------------
  // Properties of one cut
  // ---------------------------------------------------------------------------

  predicate MarkFree(s: string) {
    forall i :: 0 <= i < |s| ==> !IsBreakMark(s[i])
  }

  /** A cut is made at the last mark of the text, and one or two tokens follow that mark. */
  lemma {:induction false} CutPlace(text: string, p: nat)
    requires CutOf(text) == Some(p)
    ensures p < |text| && IsBreakMark(text[p]) && forall j :: p < j < |text| ==> !IsBreakMark(text[j])
    ensures 1 <= |Trailing(text, p)| <= 2
  {
    assert LastMark(text) == Some(p);
    LastMarkSpec(text);
  }

  /** What stays ends with the mark at `p` and is stripped. */
  lemma {:induction false} CutKeep(text: string, p: nat)
    requires p < |text| && IsBreakMark(text[p])
    ensures var k := Keep(text, p); Clean(k) && IsBreakMark(k[|k| - 1])
  {
    var head := text[..p + 1];
    assert head[|head| - 1] == text[p];
    StripEndsAtMark(head);
  }

  lemma {:induction false} StripEndsAtMark(s: string)
    requires |s| > 0 && IsBreakMark(s[|s| - 1])
    ensures var k := Strip(s); Clean(k) && IsBreakMark(k[|k| - 1])
  {
    StripKeepsLast(s);
  }

  /** After the last mark there is no mark, so none of the moved tokens holds one. */
  lemma {:induction false} CutWordsFree(text: string, p: nat)
    requires p < |text| && forall j :: p < j < |text| ==> !IsBreakMark(text[j])
    ensures AllMarkFree(Trailing(text, p))
  {
    var tail := text[p + 1..];
    assert MarkFree(tail) by {
      assert forall i :: 0 <= i < |tail| ==> tail[i] == text[p + 1 + i];
    }
    StripMarkFree(tail);
    SplitWsMarkFree(Strip(tail));
  }

  /** What a cut moves is one or two whitespace-free tokens holding no mark. */
  lemma {:induction false} CutMovable(text: string, p: nat)
    requires CutOf(text) == Some(p)
    ensures Movable(Trailing(text, p))
  {
    CutPlace(text, p);
    CutWordsFree(text, p);
    SplitWsTokens(Strip(text[p + 1..]));
  }

  lemma {:induction false} StripMarkFree(s: string)
    requires MarkFree(s)
    ensures MarkFree(Strip(s))
  {
    var l := LStrip(s);
    MarkFreeSlice(s, |s| - |l|, |s|);
    assert l == s[|s| - |l|..|s|];
    var r := RStrip(l);
    MarkFreeSlice(l, 0, |r|);
    assert r == l[0..|r|];
  }

  /** Words none of which holds a mark. */
  predicate AllMarkFree(ws: seq<string>) {
    forall k :: 0 <= k < |ws| ==> MarkFree(ws[k])
  }

  lemma {:induction false} AllMarkFreeCons(w: string, ws: seq<string>)
    requires MarkFree(w) && AllMarkFree(ws)
    ensures AllMarkFree([w] + ws)
  {
    assert forall k :: 1 <= k <= |ws| ==> ([w] + ws)[k] == ws[k - 1];
  }

  lemma {:induction false} SplitWsMarkFree(s: string)
    requires MarkFree(s)
    ensures AllMarkFree(SplitWs(s))
    decreases |s|
  {
    var t := LStrip(s);
    MarkFreeSlice(s, |s| - |t|, |s|);
    assert t == s[|s| - |t|..|s|];
    if |t| > 0 {
      var n := TokenRun(t);
      MarkFreeSlice(t, 0, n);
      assert t[..n] == t[0..n];
      MarkFreeSlice(t, n, |t|);
      assert t[n..] == t[n..|t|];
      SplitWsMarkFree(t[n..]);
      SplitWsStep(s, t, n);
      AllMarkFreeCons(t[..n], SplitWs(t[n..]));
    }
  }

  lemma {:induction false} MarkFreeSlice(s: string, i: nat, j: nat)
    requires MarkFree(s) && i <= j <= |s|
    ensures MarkFree(s[i..j])
  {
    assert forall k :: 0 <= k < j - i ==> s[i..j][k] == s[i + k];
  }

  /** Cutting loses no non-space character. */
  lemma {:induction false} CutSquash(text: string, p: nat)
    requires p < |text|
    ensures Squash(Keep(text, p)) + Concat(Trailing(text, p)) == Squash(text)
  {
    var head, tail := text[..p + 1], text[p + 1..];
    SquashSplitWs(Strip(tail));
    SquashStrip(tail);
    SquashStrip(head);
    TakeDrop(text, p + 1);
    SquashAppend(head, tail);
  }

  /** Giving the cut tokens to the next cue keeps the non-space text of the pair. */
  lemma {:induction false} CutPairSquash(text: string, p: nat, next: string)
    requires CutOf(text) == Some(p)
    ensures Squash(Keep(text, p)) + Squash(Received(Trailing(text, p), next)) == Squash(text) + Squash(next)
  {
    CutMovable(text, p);
    CutSquash(text, p);
    var words := Trailing(text, p);
    var j := Join(words, " ");
    SquashStrip(j + " " + next);
    SquashSpaceJoin(j, next);
    SquashJoinSpace(words);
    SquashAllTokens(words);
    Assoc(Squash(Keep(text, p)), Concat(words), Squash(next));
  }

  // ---------------------------------------------------------------------------
  // Properties of the whole pass
  // ---------------------------------------------------------------------------

  lemma {:induction false} TextsCons(b: Entry, bs: seq<Entry>)
    ensures SquashAll(Texts([b] + bs)) == Squash(b.text) + SquashAll(Texts(bs))
  {
    assert Texts([b] + bs)[1..] == Texts(bs);
  }

  lemma {:induction false} StepUncut(bs: seq<Entry>)
    requires |bs| > 1 && CutOf(bs[0].text).None?
    ensures ProcessBlocks(bs) == [bs[0]] + ProcessBlocks(bs[1..])
  {
  }

  lemma {:induction false} StepCut(bs: seq<Entry>, p: nat)
    requires |bs| > 1 && CutOf(bs[0].text) == Some(p)
    ensures ProcessBlocks(bs) ==
      [bs[0].(text := Keep(bs[0].text, p))] + ProcessBlocks([Give(Trailing(bs[0].text, p), bs[1])] + bs[2..])
  {
  }

  /** The in-order non-space text of all cues is unchanged by the pass. */
  lemma {:induction false} ProcessKeepsText(bs: seq<Entry>)
    ensures SquashAll(Texts(ProcessBlocks(bs))) == SquashAll(Texts(bs))
    decreases |bs|, 1
  {
    if |bs| > 1 {
      match CutOf(bs[0].text)
      case None => KeepsTextUncut(bs);
      case Some(p) => KeepsTextSome(bs, p);
    }
  }

  lemma {:induction false} KeepsTextUncut(bs: seq<Entry>)
    requires |bs| > 1 && CutOf(bs[0].text).None?
    ensures SquashAll(Texts(ProcessBlocks(bs))) == SquashAll(Texts(bs))
    decreases |bs|, 0
  {
    ProcessKeepsText(bs[1..]);
    StepUncut(bs);
    TextsCons(bs[0], bs[1..]);
    TextsCons(bs[0], ProcessBlocks(bs[1..]));
    assert [bs[0]] + bs[1..] == bs;
  }

  lemma {:induction false} KeepsTextSome(bs: seq<Entry>, p: nat)
    requires |bs| > 1 && CutOf(bs[0].text) == Some(p)
    ensures SquashAll(Texts(ProcessBlocks(bs))) == SquashAll(Texts(bs))
    decreases |bs|, 0
  {
    var next := Give(Trailing(bs[0].text, p), bs[1]);
    var tail := [next] + bs[2..];
    ProcessKeepsText(tail);
    StepCut(bs, p);
    CutPairSquash(bs[0].text, p, bs[1].text);
    KeepsTextCut(bs, bs[0].(text := Keep(bs[0].text, p)), next, ProcessBlocks(tail));
  }

  /** Rewriting the first two cues without changing their joint non-space text keeps the whole. */
  lemma {:induction false} KeepsTextCut(bs: seq<Entry>, head: Entry, next: Entry, rtail: seq<Entry>)
    requires |bs| > 1
    requires Squash(head.text) + Squash(next.text) == Squash(bs[0].text) + Squash(bs[1].text)
    requires SquashAll(Texts(rtail)) == SquashAll(Texts([next] + bs[2..]))
    ensures SquashAll(Texts([head] + rtail)) == SquashAll(Texts(bs))
  {
    var tail := [next] + bs[2..];
    TextsCons(head, rtail);
    TextsCons(head, tail);
    var ys := [head] + tail;
    assert forall k :: 2 <= k < |bs| ==> ys[k] == bs[k];
    SquashAllPair(Texts(ys), Texts(bs), 0);
  }

  lemma {:induction false} FrameAssemble(bs: seq<Entry>, head: Entry, rtail: seq<Entry>)
    requires |bs| > 0 && head.num == bs[0].num && head.timestamp == bs[0].timestamp
    requires SameFrame(rtail, bs[1..])
    ensures SameFrame([head] + rtail, bs)
  {
    FrameCons(head, rtail, bs[0], bs[1..]);
    assert [bs[0]] + bs[1..] == bs;
  }

  /** Two cue lists agree on every number and timing. */
  predicate SameFrame(a: seq<Entry>, b: seq<Entry>) {
    |a| == |b| && forall k :: 0 <= k < |a| ==> a[k].num == b[k].num && a[k].timestamp == b[k].timestamp
  }

  lemma {:induction false} FrameRefl(a: seq<Entry>)
    ensures SameFrame(a, a)
  {
  }

  lemma {:induction false} FrameTrans(a: seq<Entry>, b: seq<Entry>, c: seq<Entry>)
    requires SameFrame(a, b) && SameFrame(b, c)
    ensures SameFrame(a, c)
  {
  }

  lemma {:induction false} FrameCons(x: Entry, xs: seq<Entry>, y: Entry, ys: seq<Entry>)
    requires x.num == y.num && x.timestamp == y.timestamp && SameFrame(xs, ys)
    ensures SameFrame([x] + xs, [y] + ys)
  {
    assert forall k :: 1 <= k <= |xs| ==> ([x] + xs)[k] == xs[k - 1] && ([y] + ys)[k] == ys[k - 1];
  }

  lemma {:induction false} GiveFrame(g: Entry, bs: seq<Entry>)
    requires |bs| > 1 && g.num == bs[1].num && g.timestamp == bs[1].timestamp
    ensures SameFrame([g] + bs[2..], bs[1..])
  {
    assert forall k :: 1 <= k < |bs| - 1 ==> ([g] + bs[2..])[k] == bs[1..][k];
  }

  // ---------------------------------------------------------------------------
  // Cleanliness and the last mark
  // ---------------------------------------------------------------------------

  /** A text as cues hold it after reading: non-empty, with no space at either end. */
  predicate Clean(t: string) {
    |t| > 0 && !IsSpace(t[0]) && !IsSpace(t[|t| - 1])
  }

  /** Tokens that a cut moves: one or more, whitespace-free and mark-free. */
  predicate Movable(words: seq<string>) {
    |words| > 0 && Tokens(words) && AllMarkFree(words)
  }

  /** No mark follows the last mark, and a text without a last mark has no mark at all. */
  lemma {:induction false} LastMarkSpec(s: string)
    ensures LastMark(s).Some? ==> forall j :: LastMark(s).value < j < |s| ==> !IsBreakMark(s[j])
    ensures LastMark(s).None? ==> MarkFree(s)
    decreases |s|
  {
    if |s| > 0 && !IsBreakMark(s[|s| - 1]) {
      var t := s[..|s| - 1];
      LastMarkSpec(t);
      assert forall j :: 0 <= j < |t| ==> t[j] == s[j];
    }
  }

  /** Conversely, a mark with no mark after it is the last mark. */
  lemma {:induction false} LastMarkAt(s: string, p: nat)
    requires p < |s| && IsBreakMark(s[p]) && forall j :: p < j < |s| ==> !IsBreakMark(s[j])
    ensures LastMark(s) == Some(p)
    decreases |s|
  {
    if p < |s| - 1 {
      var t := s[..|s| - 1];
      assert t[p] == s[p];
      assert forall j :: p < j < |t| ==> t[j] == s[j];
      LastMarkAt(t, p);
    }
  }

  /** A mark-free text has no last mark. */
  lemma {:induction false} LastMarkNone(s: string)
    requires MarkFree(s)
    ensures LastMark(s).None?
    decreases |s|
  {
    if |s| > 0 {
      var t := s[..|s| - 1];
      assert MarkFree(t) by {
        assert forall j :: 0 <= j < |t| ==> t[j] == s[j];
      }
      LastMarkNone(t);
    }
  }

  // ---------------------------------------------------------------------------
  // Properties of writing
  // ---------------------------------------------------------------------------

  /** A cue whose number and timing are single lines. */
  predicate OneLine(e: Entry) {
    !HasChar(e.num, '\n') && !HasChar(e.timestamp, '\n')
  }

  /** Lines holding no line break. */
  predicate LinesFree(ls: seq<string>) {
    forall k :: 0 <= k < |ls| ==> !HasChar(ls[k], '\n')
  }

  lemma {:induction false} LinesFreeAppend(a: seq<string>, b: seq<string>)
    requires LinesFree(a) && LinesFree(b)
    ensures LinesFree(a + b)
  {
    assert forall k :: |a| <= k < |a + b| ==> (a + b)[k] == b[k - |a|];
  }

  lemma {:induction false} CueLinesFree(e: Entry)
    requires OneLine(e)
    ensures LinesFree(CueLines(e))
  {
    var t := Split(Strip(e.text), '\n');
    assert LinesFree(t);
    FramedLinesFree(e.num, e.timestamp, t);
  }

  lemma {:induction false} FramedLinesFree(a: string, b: string, t: seq<string>)
    requires !HasChar(a, '\n') && !HasChar(b, '\n') && LinesFree(t)
    ensures LinesFree([a, b] + t + [""])
  {
    var c := [a, b] + t + [""];
    assert forall k :: 2 <= k < |c| - 1 ==> c[k] == t[k - 2];
  }

  lemma {:induction false} AllLinesFree(es: seq<Entry>)
    requires forall k :: 0 <= k < |es| ==> OneLine(es[k])
    ensures LinesFree(AllLines(es))
    decreases |es|
  {
    if |es| > 0 {
      var rest := es[1..];
      assert forall k :: 0 <= k < |rest| ==> rest[k] == es[k + 1];
      AllLinesFree(rest);
      CueLinesFree(es[0]);
      LinesFreeAppend(CueLines(es[0]), AllLines(rest));
    }
  }

  /**
   * Reading the written file back line by line gives, for every cue in turn,
   * its number, its timing, the lines of its text and one empty line.
   */
  lemma {:induction false} RebuildLines(es: seq<Entry>)
    ensures |es| > 0 && (forall k :: 0 <= k < |es| ==> OneLine(es[k])) ==> Split(Join(AllLines(es), "\n"), '\n') == AllLines(es)
  {
    if |es| > 0 && forall k :: 0 <= k < |es| ==> OneLine(es[k]) {
      RebuildLinesOf(es);
    }
  }

  lemma {:induction false} RebuildLinesOf(es: seq<Entry>)
    requires |es| > 0 && forall k :: 0 <= k < |es| ==> OneLine(es[k])
    ensures Split(Join(AllLines(es), "\n"), '\n') == AllLines(es)
  {
    AllLinesFree(es);
    assert |AllLines(es)| >= |CueLines(es[0])|;
    SplitOfJoin(AllLines(es), '\n');
  }
}
