/**
 * The speech-rate report of count_words.py.
 *
 * The lines of a `.merge3.srt` file are grouped into blocks (maximal runs of
 * non-blank lines, each stored stripped).  For every block the report gives
 * the number of `\w+` words on its content lines, an estimated speaking time
 * of 8/37 second per word, the real duration of its first timing line and the
 * relative rate `(1 - estimate / real) * 100`.  A block whose rate is negative
 * is spoken faster than the estimate allows; the report ends with the list of
 * those blocks' 1-based positions.
 *
 * Numbers are kept exact: durations in milliseconds, the rate as a fraction of
 * integers, and every `:.2f` rendering as a fraction rounded to hundredths.
 */
module RateReport {
  import opened Wrappers
  import opened Text
  import opened Decimal
  import opened Timestamp
  import opened PathNames

  // ---------------------------------------------------------------------------
  // Blocks
  // ---------------------------------------------------------------------------

  /** A line as it is stored in a block: non-empty, no whitespace at either end. */
  predicate Bare(l: string) {
    |l| > 0 && !IsSpace(l[0]) && !IsSpace(l[|l| - 1])
  }

  /** What the block loop keeps of one line: nothing for a blank line, else the stripped line. */
  function Seen(l: string): (r: Option<string>)
    ensures r.Some? ==> Bare(r.value)
  {
    if IsBlank(l) then None else Some(Strip(l))
  }

  /**
   * The block loop of `process_srt_file`, generic over what it keeps of a
   * line: a kept line extends the open block, a dropped line closes it.
   */
  function Gather(lines: seq<string>, see: string -> Option<string>, done: seq<seq<string>>, block: seq<string>)
    : (r: seq<seq<string>>)
    decreases |lines|
  {
    if |lines| == 0 then (if |block| > 0 then done + [block] else done)
    else
      match see(lines[0])
      case None => Gather(lines[1..], see, if |block| > 0 then done + [block] else done, [])
      case Some(x) => Gather(lines[1..], see, done, block + [x])
  }

  /** The blocks of a file given as its lines (`readlines()`, terminators dropped). */
  function SplitBlocks(lines: seq<string>): seq<seq<string>> {
    Gather(lines, Seen, [], [])
  }

  /** The lines of all blocks, in order. */
  function AllLines(bs: seq<seq<string>>): seq<string>
    decreases |bs|
  {
    if |bs| == 0 then [] else bs[0] + AllLines(bs[1..])
  }

  /** The kept lines of a file, in order: `[l.strip() for l in lines if l.strip()]`. */
  function Kept(lines: seq<string>, see: string -> Option<string>): seq<string>
    decreases |lines|
  {
    if |lines| == 0 then []
    else (match see(lines[0]) case None => [] case Some(x) => [x]) + Kept(lines[1..], see)
  }

  /** Blocks laid out as lines, one empty line between neighbours. */
  function Spread(bs: seq<seq<string>>): seq<string>
    decreases |bs|
  {
    if |bs| == 0 then []
    else if |bs| == 1 then bs[0]
    else bs[0] + [""] + Spread(bs[1..])
  }

  lemma {:induction false} AllLinesSnoc(bs: seq<seq<string>>, b: seq<string>)
    ensures AllLines(bs + [b]) == AllLines(bs) + b
    decreases |bs|
  {
    if |bs| == 0 {
      assert [] + [b] == [b];
    } else {
      assert (bs + [b])[1..] == bs[1..] + [b];
      AllLinesSnoc(bs[1..], b);
    }
  }

  /** The blocks hold exactly the kept lines, in order. */
  lemma {:induction false} GatherLines(lines: seq<string>, see: string -> Option<string>,
                                       done: seq<seq<string>>, block: seq<string>)
    ensures AllLines(Gather(lines, see, done, block)) == AllLines(done) + block + Kept(lines, see)
    decreases |lines|, 1
  {
    if |lines| == 0 {
      if |block| > 0 { AllLinesSnoc(done, block); }
      assert Kept(lines, see) == [];
    } else if see(lines[0]).None? {
      GatherLinesDrop(lines, see, done, block);
    } else {
      GatherLinesKeep(lines, see, done, block);
    }
  }

  lemma {:induction false} GatherLinesDrop(lines: seq<string>, see: string -> Option<string>,
                                           done: seq<seq<string>>, block: seq<string>)
    requires |lines| > 0 && see(lines[0]).None?
    ensures AllLines(Gather(lines, see, done, block)) == AllLines(done) + block + Kept(lines, see)
    decreases |lines|, 0
  {
    var d := if |block| > 0 then done + [block] else done;
    var g := Gather(lines[1..], see, d, []);
    var k := Kept(lines[1..], see);
    assert Gather(lines, see, done, block) == g;
    assert Kept(lines, see) == k;
    var a := AllLines(done);
    if |block| > 0 { AllLinesSnoc(done, block); }
    assert AllLines(d) == a + block;
    GatherLines(lines[1..], see, d, []);
    assert AllLines(g) == AllLines(d) + [] + k;
    Concat3(a, block, k);
  }

  lemma {:induction false} Concat3(a: seq<string>, b: seq<string>, k: seq<string>)
    ensures (a + b) + [] + k == a + b + k
  {
  }

  lemma {:induction false} GatherLinesKeep(lines: seq<string>, see: string -> Option<string>,
                                           done: seq<seq<string>>, block: seq<string>)
    requires |lines| > 0 && see(lines[0]).Some?
    ensures AllLines(Gather(lines, see, done, block)) == AllLines(done) + block + Kept(lines, see)
    decreases |lines|, 0
  {
    var x := see(lines[0]).value;
    assert Gather(lines, see, done, block) == Gather(lines[1..], see, done, block + [x]);
    assert Kept(lines, see) == [x] + Kept(lines[1..], see);
    GatherLines(lines[1..], see, done, block + [x]);
  }

  /** No block is empty. */
  lemma {:induction false} GatherNonEmpty(lines: seq<string>, see: string -> Option<string>,
                                          done: seq<seq<string>>, block: seq<string>)
    requires forall k :: 0 <= k < |done| ==> |done[k]| > 0
    ensures forall k :: 0 <= k < |Gather(lines, see, done, block)| ==> |Gather(lines, see, done, block)[k]| > 0
    decreases |lines|
  {
    if |lines| > 0 {
      match see(lines[0])
      case None =>
        GatherNonEmpty(lines[1..], see, if |block| > 0 then done + [block] else done, []);
      case Some(x) =>
        GatherNonEmpty(lines[1..], see, done, block + [x]);
    }
  }

  /** Every line of `b` is kept as it is. */
  predicate KeptAsIs(b: seq<string>, see: string -> Option<string>) {
    forall j :: 0 <= j < |b| ==> see(b[j]) == Some(b[j])
  }

  /** A run of kept lines goes into the open block. */
  lemma {:induction false} GatherRun(run: seq<string>, rest: seq<string>, see: string -> Option<string>,
                                     done: seq<seq<string>>, block: seq<string>)
    requires KeptAsIs(run, see)
    ensures Gather(run + rest, see, done, block) == Gather(rest, see, done, block + run)
    decreases |run|
  {
    if |run| == 0 {
      assert run + rest == rest && block + run == block;
    } else {
      assert (run + rest)[0] == run[0] && (run + rest)[1..] == run[1..] + rest;
      assert see(run[0]) == Some(run[0]);
      assert KeptAsIs(run[1..], see) by {
        forall j | 0 <= j < |run[1..]| ensures see(run[1..][j]) == Some(run[1..][j]) {
          assert run[1..][j] == run[j + 1];
        }
      }
      GatherRun(run[1..], rest, see, done, block + [run[0]]);
      assert block + [run[0]] + run[1..] == block + run;
    }
  }

  /** The last block, spread alone, closes at the end of the lines. */
  lemma {:induction false} GatherSpreadOne(b: seq<string>, see: string -> Option<string>, done: seq<seq<string>>)
    requires |b| > 0 && KeptAsIs(b, see)
    ensures Gather(b, see, done, []) == done + [b]
  {
    GatherRun(b, [], see, done, []);
    assert b + [] == b && [] + b == b;
  }

  /** A block followed by an empty line closes before the rest is gathered. */
  lemma {:induction false} GatherSpreadCons(b: seq<string>, tail: seq<string>, see: string -> Option<string>,
                                            done: seq<seq<string>>)
    requires see("") == None
    requires |b| > 0 && KeptAsIs(b, see)
    ensures Gather(b + ([""] + tail), see, done, []) == Gather(tail, see, done + [b], [])
  {
    var rest := [""] + tail;
    GatherRun(b, rest, see, done, []);
    assert [] + b == b;
    assert rest[0] == "" && rest[1..] == tail;
  }

  /** Blocks spread with empty lines between them are gathered back unchanged. */
  lemma {:induction false} GatherSpread(bs: seq<seq<string>>, see: string -> Option<string>, done: seq<seq<string>>)
    requires see("") == None
    requires forall k :: 0 <= k < |bs| ==> |bs[k]| > 0 && KeptAsIs(bs[k], see)
    ensures Gather(Spread(bs), see, done, []) == done + bs
    decreases |bs|
  {
    if |bs| == 1 {
      GatherSpreadOne(bs[0], see, done);
      assert bs == [bs[0]];
    } else if |bs| > 1 {
      assert Spread(bs) == bs[0] + ([""] + Spread(bs[1..]));
      GatherSpreadCons(bs[0], Spread(bs[1..]), see, done);
      assert forall k :: 0 <= k < |bs[1..]| ==> bs[1..][k] == bs[k + 1];
      GatherSpread(bs[1..], see, done + [bs[0]]);
      assert done + [bs[0]] + bs[1..] == done + bs;
    }
  }

  lemma {:induction false} SeenBare(l: string)
    requires Bare(l)
    ensures Seen(l) == Some(l)
  {
    StripOfStripped(l);
  }

  /** Every block is non-empty and the blocks hold the file's non-blank lines, stripped, in order. */
  lemma {:induction false} BlocksPartition(lines: seq<string>)
    ensures forall k :: 0 <= k < |SplitBlocks(lines)| ==> |SplitBlocks(lines)[k]| > 0
    ensures AllLines(SplitBlocks(lines)) == Kept(lines, Seen)
  {
    GatherNonEmpty(lines, Seen, [], []);
    GatherLines(lines, Seen, [], []);
  }

  /** Every kept line is stored bare (stripped and non-empty). */
  lemma {:induction false} KeptBare(lines: seq<string>)
    ensures forall k :: 0 <= k < |Kept(lines, Seen)| ==> Bare(Kept(lines, Seen)[k])
    decreases |lines|
  {
    if |lines| > 0 {
      KeptBare(lines[1..]);
    }
  }

  /** Splitting is the inverse of laying blocks out with one empty line between them. */
  lemma {:induction false} BlocksOfSpread(bs: seq<seq<string>>)
    requires forall k :: 0 <= k < |bs| ==> |bs[k]| > 0
    requires forall k, j :: 0 <= k < |bs| && 0 <= j < |bs[k]| ==> Bare(bs[k][j])
    ensures SplitBlocks(Spread(bs)) == bs
  {
    assert Seen("") == None by { assert Strip("") == ""; }
    forall k | 0 <= k < |bs|
      ensures |bs[k]| > 0 && KeptAsIs(bs[k], Seen)
    {
      forall j | 0 <= j < |bs[k]| ensures Seen(bs[k][j]) == Some(bs[k][j]) {
        SeenBare(bs[k][j]);
      }
    }
    GatherSpread(bs, Seen, []);
    assert [] + bs == bs;
  }

  // ---------------------------------------------------------------------------
  // Content lines and words
  // ---------------------------------------------------------------------------

  /** A content line: neither all digits (`^\d+$`) nor starting like a timestamp (`^\d{2}:\d{2}:\d{2}`). */
  predicate IsContent(l: string) {
    !IsDigits(l) && !StartsLikeTime(l)
  }

  /** The content lines of a block, in order. */
  function ContentLines(block: seq<string>): (r: seq<string>)
    ensures |r| <= |block|
    ensures forall k :: 0 <= k < |r| ==> IsContent(r[k])
    decreases |block|
  {
    if |block| == 0 then []
    else (if IsContent(block[0]) then [block[0]] else []) + ContentLines(block[1..])
  }

  lemma {:induction false} ContentAppend(a: seq<string>, b: seq<string>)
    ensures ContentLines(a + b) == ContentLines(a) + ContentLines(b)
    decreases |a|
  {
    if |a| == 0 {
      assert a + b == b;
    } else {
      assert (a + b)[0] == a[0] && (a + b)[1..] == a[1..] + b;
      ContentAppend(a[1..], b);
    }
  }

  /** A block of content lines only is its own content. */
  lemma {:induction false} ContentOfContent(block: seq<string>)
    requires forall k :: 0 <= k < |block| ==> IsContent(block[k])
    ensures ContentLines(block) == block
    decreases |block|
  {
    if |block| > 0 {
      ContentOfContent(block[1..]);
      assert [block[0]] + block[1..] == block;
    }
  }

  /** `count_words_and_punct`: the `\w+` runs of all lines. */
  function WordCount(lines: seq<string>): nat
    decreases |lines|
  {
    if |lines| == 0 then 0 else CountWords(lines[0]) + WordCount(lines[1..])
  }

  /** Counting line by line is counting the lines joined with spaces. */
  lemma {:induction false} WordCountJoin(lines: seq<string>)
    ensures WordCount(lines) == CountWords(Join(lines, " "))
    decreases |lines|
  {
    if |lines| == 1 {
      assert WordCount(lines[1..]) == 0;
    } else if |lines| > 1 {
      WordCountJoin(lines[1..]);
      CountWordsSpaceJoin(lines[0], Join(lines[1..], " "));
    }
  }

  // ---------------------------------------------------------------------------
  // Time range
  // ---------------------------------------------------------------------------

  /** Milliseconds in a day: the clock times `strptime` accepts lie below it. */
  const DayMs := 86400000

  /**
   * `datetime.strptime(t, "%H:%M:%S,%f")` as the milliseconds since
   * midnight: `t` must have the timestamp shape, the hour must be at most 23
   * and the minute and the second at most 59, otherwise `strptime` raises
   * `ValueError`.
   */
  function ClockMs(t: string): (r: Option<nat>)
    ensures r.Some? ==> IsTimeStr(t) && r.value < DayMs
  {
    if !IsTimeStr(t) then None
    else
      var h, m, s, f := DigitsVal(t[0..2]), DigitsVal(t[3..5]), DigitsVal(t[6..8]), DigitsVal(t[9..12]);
      DigitsValBound(t[9..12]);
      if h < 24 && m < 60 && s < 60 then Some(Millis(h, m, s, f)) else None
  }

  /** A clock value spells the timestamp it was read from. */
  lemma {:induction false} ClockSpells(t: string)
    requires ClockMs(t).Some?
    ensures MsToTimeStr(ClockMs(t).value) == t
  {
    ParseThenRender(t);
  }

  /** Every time of day is read back from its rendering. */
  lemma {:induction false} ClockOfRendering(ms: nat)
    requires ms < DayMs
    ensures IsTimeStr(MsToTimeStr(ms)) && ClockMs(MsToTimeStr(ms)) == Some(ms)
  {
    var h, m, s, f := ms / 3600000, ms % 3600000 / 60000, ms % 3600000 % 60000 / 1000, ms % 3600000 % 60000 % 1000;
    MillisOfFields(ms);
    RenderFields(h, m, s, f);
    var t := MsToTimeStr(ms);
    RenderIsTimeStr(h, m, s, f);
    var hs, ns, ss, fs := PadInt(h, 2), PadNat(m, 2), PadNat(s, 2), PadNat(f, 3);
    assert hs == PadNat(h, 2);
    PadNatWidth(h, 2);
    PadNatWidth(m, 2);
    PadNatWidth(s, 2);
    PadNatWidth(f, 3);
    FieldsAt(hs, ns, ss, fs, t);
  }

  /** The four fields of a timestamp sit at fixed positions. */
  lemma {:induction false} FieldsAt(hs: string, ms: string, ss: string, fs: string, t: string)
    requires |hs| == 2 && |ms| == 2 && |ss| == 2 && |fs| == 3
    requires t == hs + ":" + ms + ":" + ss + "," + fs
    ensures t[0..2] == hs && t[3..5] == ms && t[6..8] == ss && t[9..12] == fs
  {
  }

  /**
   * The scan of `get_time_range`, generic over the timing matcher and the
   * clock reader: the first line the matcher accepts gives the start and end
   * times; `Ok(None)` when no line matches, `Err` when the reader rejects
   * either time of the first match.
   */
  function FirstRange(block: seq<string>, timing: string -> Option<(string, string)>, clock: string -> Option<nat>)
    : (r: Result<Option<(nat, nat)>>)
    decreases |block|
  {
    if |block| == 0 then Ok(None)
    else
      match timing(block[0])
      case None => FirstRange(block[1..], timing, clock)
      case Some(p) =>
        match clock(p.0)
        case None => Err("time data does not match format '%H:%M:%S,%f'")
        case Some(a) =>
          match clock(p.1)
          case None => Err("time data does not match format '%H:%M:%S,%f'")
          case Some(b) => Ok(Some((a, b)))
  }

  /** `get_time_range` on a block's lines. */
  function TimeRange(block: seq<string>): Result<Option<(nat, nat)>> {
    FirstRange(block, LooseTiming, ClockMs)
  }

  /** No matching line at all gives no range. */
  lemma {:induction false} FirstRangeNone(block: seq<string>, timing: string -> Option<(string, string)>,
                                          clock: string -> Option<nat>)
    ensures FirstRange(block, timing, clock) == Ok(None) <==> forall k :: 0 <= k < |block| ==> timing(block[k]).None?
    decreases |block|
  {
    if |block| > 0 {
      FirstRangeNone(block[1..], timing, clock);
      if timing(block[0]).None? {
        forall k | 1 <= k < |block| ensures block[k] == block[1..][k - 1] {}
      }
    }
  }

  /** A range comes from the first line the matcher accepts; the reader accepts both of its times. */
  lemma {:induction false} FirstRangeAt(block: seq<string>, timing: string -> Option<(string, string)>,
                                        clock: string -> Option<nat>, a: nat, b: nat)
    returns (k: nat, p: (string, string))
    requires FirstRange(block, timing, clock) == Ok(Some((a, b)))
    ensures k < |block|
    ensures forall j :: 0 <= j < k ==> timing(block[j]).None?
    ensures timing(block[k]) == Some(p) && clock(p.0) == Some(a) && clock(p.1) == Some(b)
    decreases |block|, 1
  {
    if timing(block[0]).None? {
      k, p := FirstRangeLater(block, timing, clock, a, b);
    } else {
      k, p := 0, timing(block[0]).value;
    }
  }

  lemma {:induction false} FirstRangeLater(block: seq<string>, timing: string -> Option<(string, string)>,
                                           clock: string -> Option<nat>, a: nat, b: nat)
    returns (k: nat, p: (string, string))
    requires |block| > 0 && timing(block[0]).None?
    requires FirstRange(block, timing, clock) == Ok(Some((a, b)))
    ensures k < |block|
    ensures forall j :: 0 <= j < k ==> timing(block[j]).None?
    ensures timing(block[k]) == Some(p) && clock(p.0) == Some(a) && clock(p.1) == Some(b)
    decreases |block|, 0
  {
    assert FirstRange(block, timing, clock) == FirstRange(block[1..], timing, clock);
    var k';
    k', p := FirstRangeAt(block[1..], timing, clock, a, b);
    k := k' + 1;
    assert block[k] == block[1..][k'];
    forall j | 0 <= j < k ensures timing(block[j]).None? {
      if j > 0 {
        assert block[j] == block[1..][j - 1];
      }
    }
  }

  /** `get_time_range` finds nothing exactly when no line is a timing line. */
  lemma {:induction false} TimeRangeNone(block: seq<string>)
    ensures TimeRange(block) == Ok(None) <==> forall k :: 0 <= k < |block| ==> LooseTiming(block[k]).None?
  {
    FirstRangeNone(block, LooseTiming, ClockMs);
  }

  /** A range spells the two timestamps of the block's first timing line. */
  lemma {:induction false} TimeRangeFirst(block: seq<string>, a: nat, b: nat) returns (k: nat)
    requires TimeRange(block) == Ok(Some((a, b)))
    ensures k < |block|
    ensures forall j :: 0 <= j < k ==> LooseTiming(block[j]).None?
    ensures LooseTiming(block[k]) == Some((MsToTimeStr(a), MsToTimeStr(b)))
  {
    var p;
    k, p := FirstRangeAt(block, LooseTiming, ClockMs, a, b);
    ClockSpells(p.0);
    ClockSpells(p.1);
  }

  // ---------------------------------------------------------------------------
  // Rate
  // ---------------------------------------------------------------------------

  /** What the report measures of a block: its word count and its real duration in milliseconds, if any. */
  datatype Measure = Measure(words: nat, span: Option<int>)

  /** The measure of one block; fails when `get_time_range` raises. */
  function MeasureBlock(block: seq<string>): (r: Result<Measure>)
    ensures r.Ok? ==> r.value.words == WordCount(ContentLines(block))
    ensures r.Ok? ==> (r.value.span.None? <==> TimeRange(block) == Ok(None))
  {
    match TimeRange(block)
    case Err(e) => Err(e)
    case Ok(t) =>
      Ok(Measure(WordCount(ContentLines(block)), if t.Some? then Some(t.value.1 - t.value.0) else None))
  }

  /** The real duration in milliseconds, 0 when the block has no timing line. */
  function SpanMs(m: Measure): int {
    if m.span.Some? then m.span.value else 0
  }

  /** The rate exactly as the source states it, in real arithmetic: `(1 - 1/k) * 100` with `k = real / estimate`. */
  function RateValue(m: Measure): real {
    var est := if m.words > 0 then (m.words * 8) as real / 37.0 else 0.0;
    var act := SpanMs(m) as real / 1000.0;
    if est > 0.0 && act > 0.0 then (1.0 - 1.0 / (act / est)) * 100.0 else 0.0
  }

  /** The rate as a fraction `(numerator, denominator)` of integers. */
  function RateFraction(m: Measure): (r: (int, nat))
    ensures r.1 > 0
  {
    var ms := SpanMs(m);
    if m.words > 0 && ms > 0 then (100 * (37 * ms - 8000 * m.words), 37 * ms) else (0, 1)
  }

  /** A block the report flags: spoken in less time than its words are estimated to need. */
  predicate Slow(m: Measure) {
    m.words > 0 && SpanMs(m) > 0 && SpanMs(m) * 37 < m.words * 8000
  }

  lemma {:induction false} RateAlgebra(w: nat, ms: int)
    requires w > 0 && ms > 0
    ensures var est := (w * 8) as real / 37.0; var act := ms as real / 1000.0;
      (1.0 - 1.0 / (act / est)) * 100.0 == (100 * (37 * ms - 8000 * w)) as real / (37 * ms) as real
  {
    var est := (w * 8) as real / 37.0;
    var act := ms as real / 1000.0;
    assert est * 37.0 == (w * 8) as real;
    assert act * 1000.0 == ms as real;
    var k := act / est;
    assert k * est == act;
    var inv := 1.0 / k;
    assert inv * k == 1.0;
    assert inv * act == est by {
      assert inv * act == inv * (k * est) == (inv * k) * est;
    }
    var d := (37 * ms) as real;
    assert d == act * 37000.0;
    assert inv * d == (8000 * w) as real by {
      assert inv * d == (inv * act) * 37000.0 == est * 37000.0;
    }
    var z := (1.0 - inv) * 100.0;
    assert z * d == (100 * (37 * ms - 8000 * w)) as real;
    assert z == (z * d) / d;
  }

  /** The integer fraction is the source's rate, and the rate is negative exactly for slow blocks. */
  lemma {:induction false} RateSign(m: Measure)
    ensures RateValue(m) == RateFraction(m).0 as real / RateFraction(m).1 as real
    ensures RateValue(m) < 0.0 <==> Slow(m)
    ensures RateFraction(m).0 < 0 <==> Slow(m)
  {
    if m.words > 0 && SpanMs(m) > 0 {
      RateAlgebra(m.words, SpanMs(m));
    }
  }

  // ---------------------------------------------------------------------------
  // Rendering numbers
  // ---------------------------------------------------------------------------

  /** `n * 100 / d` rounded to the nearest integer, halves to even. */
  function Hundredths(n: nat, d: nat): nat
    requires d > 0
  {
    HalfEven(100 * n / d, 100 * n % d, d)
  }

  /** The quotient `q` with remainder `r` of a division by `d`, rounded half to even. */
  function HalfEven(q: nat, r: nat, d: nat): nat {
    if 2 * r > d || (2 * r == d && q % 2 == 1) then q + 1 else q
  }

  /** The rounded hundredths are within half a unit of `100 * n / d`. */
  lemma {:induction false} HundredthsNear(n: nat, d: nat)
    requires d > 0
    ensures var h := Hundredths(n, d); 2 * (h * d - 100 * n) <= d && 2 * (100 * n - h * d) <= d
  {
    RoundingParts(100 * n, d, 100 * n / d, 100 * n % d);
  }

  lemma {:induction false} RoundingParts(x: nat, d: nat, q: nat, r: nat)
    requires d > 0 && q == x / d && r == x % d
    ensures x == q * d + r && r < d
    ensures 2 * (q * d - x) <= d && 2 * ((q + 1) * d - x) <= d + 2 * (d - r)
    ensures (q + 1) * d - x == d - r && x - (q + 1) * d == r - d && x - q * d == r
  {
  }

  /** A character of a rendered number: a digit, the point or the minus sign (the class `[\d\.\-]`). */
  predicate IsNumChar(c: char) {
    IsDigit(c) || c == '.' || c == '-'
  }

  /** `num / den` rounded to hundredths, with its sign: the value `f"{x:.2f}"` prints, times 100. */
  function Rounded(num: int, den: nat): int
    requires den > 0
  {
    WithSign(num < 0, Hundredths(Magnitude(num), den))
  }

  /** The absolute value. */
  function Magnitude(num: int): nat {
    if num < 0 then -num else num
  }

  /** `h` with a minus sign when `neg`. */
  function WithSign(neg: bool, h: nat): int {
    if neg then -(h as int) else h
  }

  /** The signed rounding is within half a hundredth of `num / den`. */
  lemma {:induction false} RoundedNear(num: int, den: nat)
    requires den > 0
    ensures var v := Rounded(num, den); 2 * (v * den - 100 * num) <= den && 2 * (100 * num - v * den) <= den
  {
    var h: int := Hundredths(Magnitude(num), den);
    HundredthsNear(Magnitude(num), den);
    if num < 0 {
      assert (-h) * den == -(h * den);
    }
  }

  /** `f"{x:.2f}"` for `x = num / den`: a minus sign for a negative value, then the rounded hundredths. */
  function Fixed2(num: int, den: nat): (r: string)
    requires den > 0
    ensures |r| >= 4
    ensures r[0] == '-' <==> num < 0
    ensures forall k :: 0 <= k < |r| ==> IsNumChar(r[k])
  {
    SignText(num < 0, HundredthsText(Hundredths(Magnitude(num), den)))
  }

  /** The hundredths `h` written as whole units, a point and two digits. */
  function HundredthsText(h: nat): (r: string)
    ensures |r| >= 4 && r[0] != '-'
    ensures forall k :: 0 <= k < |r| ==> IsNumChar(r[k])
  {
    NatToString(h / 100) + "." + PadNat(h % 100, 2)
  }

  /** `body` after a minus sign when `neg`. */
  function SignText(neg: bool, body: string): string {
    if neg then "-" + body else body
  }

  /** Python's `str` of a list of non-negative integers: `[1, 2, 3]`. */
  function ListText(ns: seq<nat>): (r: string)
    ensures |r| >= 2 && r[0] == '[' && r[|r| - 1] == ']'
  {
    "[" + Join(NatTexts(ns), ", ") + "]"
  }

  function NatTexts(ns: seq<nat>): (r: seq<string>)
    ensures |r| == |ns|
    ensures forall k :: 0 <= k < |r| ==> r[k] == NatToString(ns[k])
    decreases |ns|
  {
    if |ns| == 0 then [] else [NatToString(ns[0])] + NatTexts(ns[1..])
  }

  // ---------------------------------------------------------------------------
  // The report
  // ---------------------------------------------------------------------------

  /** The report line of block `idx`. */
  function BlockLine(idx: nat, m: Measure): string {
    "Block " + NatToString(idx) + ":" + BlockFigures(m)
  }

  /** The figures of a block's report line: its estimates, then its rate. */
  function BlockFigures(m: Measure): string {
    Estimates(m.words, SpanMs(m)) + "Rate: " + Fixed2(RateFraction(m).0, RateFraction(m).1) + "%"
  }

  /** The word count and the three durations of a block's report line, for `w` words spoken in `ms` milliseconds. */
  function Estimates(w: nat, ms: int): string {
    EstimateText(NatToString(w), Fixed2(w * 8, 37), Fixed2(ms, 1000), Fixed2(8000 * w - 37 * ms, 37000))
  }

  /** The wording of a block's estimates around the four rendered numbers. */
  function EstimateText(words: string, estimate: string, actual: string, diff: string): string {
    " " + words + " t\U{1EEB}, "
    + "\U{1AF}\U{1EDB}c l\U{1B0}\U{1EE3}ng: " + estimate + " gi\U{E2}y, "
    + "Th\U{1EF1}c t\U{1EBF}: " + actual + " gi\U{E2}y, "
    + "Ch\U{EA}nh l\U{1EC7}ch: " + diff + " gi\U{E2}y, "
  }

  /** The label of the summary line that lists the slow blocks. */
  const SlowLabel := "C\U{E1}c ph\U{1EE5} \U{111}\U{1EC1} c\U{F3} rate < 0%: "

  /** The lines of consecutive blocks numbered from `first`, generic over the line of one block. */
  function BlockLines(ms: seq<Measure>, first: nat, line: (nat, Measure) -> string): (r: seq<string>)
    ensures |r| == |ms|
    ensures forall k :: 0 <= k < |r| ==> r[k] == line(first + k, ms[k])
    decreases |ms|
  {
    if |ms| == 0 then [] else [line(first, ms[0])] + BlockLines(ms[1..], first + 1, line)
  }

  /** The positions, numbered from `first`, of the slow blocks, in order. */
  function SlowList(ms: seq<Measure>, first: nat): seq<nat>
    decreases |ms|
  {
    if |ms| == 0 then []
    else (if Slow(ms[0]) then [first] else []) + SlowList(ms[1..], first + 1)
  }

  function TotalWords(ms: seq<Measure>): nat
    decreases |ms|
  {
    if |ms| == 0 then 0 else ms[0].words + TotalWords(ms[1..])
  }

  function TotalSpan(ms: seq<Measure>): int
    decreases |ms|
  {
    if |ms| == 0 then 0 else SpanMs(ms[0]) + TotalSpan(ms[1..])
  }

  /** The summary after the block lines: totals, then the list of slow blocks. */
  function Summary(ms: seq<Measure>): (r: seq<string>)
    ensures |r| == 6
    ensures r[5] == SlowLabel + ListText(SlowList(ms, 1))
  {
    Totals(TotalWords(ms), TotalSpan(ms), ListText(SlowList(ms, 1)))
  }

  /** The summary for `w` words spoken in `t` milliseconds, with the rendered list of slow blocks. */
  function Totals(w: nat, t: int, slow: string): seq<string> {
    SummaryText(NatToString(w), Fixed2(w * 8, 37), Fixed2(t, 1000), Fixed2(8000 * w - 37 * t, 37000), slow)
  }

  /** The wording of the summary around the rendered totals and the list of slow blocks. */
  function SummaryText(words: string, estimate: string, actual: string, diff: string, slow: string)
    : seq<string>
  {
    [ "",
      "T\U{1ED5}ng s\U{1ED1} t\U{1EEB}: " + words,
      "T\U{1ED5}ng th\U{1EDD}i gian n\U{F3}i (\U{1B0}\U{1EDB}c l\U{1B0}\U{1EE3}ng): " + estimate + " gi\U{E2}y",
      "T\U{1ED5}ng th\U{1EDD}i gian n\U{F3}i (th\U{1EF1}c t\U{1EBF} t\U{1EEB} ph\U{1EE5} \U{111}\U{1EC1}): "
        + actual + " gi\U{E2}y",
      "T\U{1ED5}ng ch\U{EA}nh l\U{1EC7}ch: " + diff + " gi\U{E2}y",
      SlowLabel + slow ]
  }

  /** The measures of the blocks up to the first failure, and that failure. */
  function MeasureAll(bs: seq<seq<string>>): (r: (seq<Measure>, Option<string>))
    decreases |bs|
  {
    if |bs| == 0 then ([], None)
    else
      match MeasureBlock(bs[0])
      case Err(e) => ([], Some(e))
      case Ok(m) =>
        var rest := MeasureAll(bs[1..]);
        ([m] + rest.0, rest.1)
  }

  /** What `process_srt_file` leaves in the report file, and the error that stopped it, if any. */
  datatype Outcome = Outcome(written: seq<string>, failure: Option<string>)

  /**
   * `process_srt_file` on the lines of a file: one line per block, written as
   * the block is measured, then the summary.  A failure leaves the lines
   * written so far and no summary: the lines stop at the block that failed.
   */
  function Report(lines: seq<string>): (r: Outcome)
    ensures var bs := SplitBlocks(lines);
      && (r.failure.None? ==> |r.written| == |bs| + 6)
      && (r.failure.Some? ==> |r.written| < |bs| && MeasureBlock(bs[|r.written|]) == Err(r.failure.value))
      && forall k :: 0 <= k < |bs| && (r.failure.None? || k < |r.written|) ==>
           MeasureBlock(bs[k]).Ok? && r.written[k] == BlockLine(k + 1, MeasureBlock(bs[k]).value)
  {
    var bs := SplitBlocks(lines);
    var (ms, failure) := MeasureAll(bs);
    MeasureAllPrefix(bs);
    if failure.None? then Outcome(BlockLines(ms, 1, BlockLine) + Summary(ms), None)
    else Outcome(BlockLines(ms, 1, BlockLine), failure)
  }

  /** The file text of report lines, each ended by a newline. */
  function ReportText(written: seq<string>): string
    decreases |written|
  {
    if |written| == 0 then "" else written[0] + "\n" + ReportText(written[1..])
  }

  /** The measures are those of a prefix of the blocks; a failure names the block after it. */
  lemma {:induction false} MeasureAllPrefix(bs: seq<seq<string>>)
    ensures |MeasureAll(bs).0| <= |bs|
    ensures forall k :: 0 <= k < |MeasureAll(bs).0| ==> MeasureBlock(bs[k]) == Ok(MeasureAll(bs).0[k])
    ensures MeasureAll(bs).1.None? ==> |MeasureAll(bs).0| == |bs|
    ensures MeasureAll(bs).1.Some? ==>
      |MeasureAll(bs).0| < |bs| && MeasureBlock(bs[|MeasureAll(bs).0|]) == Err(MeasureAll(bs).1.value)
    decreases |bs|
  {
    if |bs| > 0 && MeasureBlock(bs[0]).Ok? {
      MeasureAllPrefix(bs[1..]);
      var rest := MeasureAll(bs[1..]);
      assert MeasureAll(bs).0 == [MeasureBlock(bs[0]).value] + rest.0;
      assert forall k :: 1 <= k < |bs| ==> bs[k] == bs[1..][k - 1];
    }
  }

  /** The slow list is strictly increasing and holds exactly the positions of the slow blocks. */
  lemma SlowListSpec(ms: seq<Measure>, first: nat)
    ensures forall j :: 0 < j < |SlowList(ms, first)| ==> SlowList(ms, first)[j - 1] < SlowList(ms, first)[j]
    ensures forall x :: x in SlowList(ms, first) <==> first <= x < first + |ms| && Slow(ms[x - first])
    ensures forall x :: x in SlowList(ms, first) ==> first <= x
  {
    SlowListMembers(ms, first);
    SlowListSorted(ms, first);
  }

  lemma {:induction false} SlowListMembers(ms: seq<Measure>, first: nat)
    ensures forall x :: x in SlowList(ms, first) <==> first <= x < first + |ms| && Slow(ms[x - first])
    decreases |ms|
  {
    if |ms| > 0 {
      var t := SlowList(ms[1..], first + 1);
      SlowListMembers(ms[1..], first + 1);
      assert SlowList(ms, first) == (if Slow(ms[0]) then [first] else []) + t;
      forall x ensures x in SlowList(ms, first) <==> first <= x < first + |ms| && Slow(ms[x - first]) {
        if first < x < first + |ms| {
          assert ms[1..][x - (first + 1)] == ms[x - first];
        }
      }
    }
  }

  lemma {:induction false} SlowListSorted(ms: seq<Measure>, first: nat)
    ensures forall j :: 0 < j < |SlowList(ms, first)| ==> SlowList(ms, first)[j - 1] < SlowList(ms, first)[j]
    decreases |ms|
  {
    if |ms| > 0 {
      var t := SlowList(ms[1..], first + 1);
      SlowListSorted(ms[1..], first + 1);
      if Slow(ms[0]) {
        SlowListMembers(ms[1..], first + 1);
        var l := [first] + t;
        assert SlowList(ms, first) == l;
        forall j | 0 < j < |l| ensures l[j - 1] < l[j] {
          if j == 1 {
            assert t[0] in t;
          } else {
            assert l[j - 1] == t[j - 2] && l[j] == t[j - 1];
          }
        }
      }
    }
  }

  /** A completed report is the block lines followed by the summary. */
  lemma {:induction false} ReportParts(lines: seq<string>, bs: seq<seq<string>>, ms: seq<Measure>)
    requires bs == SplitBlocks(lines) && ms == MeasureAll(bs).0 && MeasureAll(bs).1.None?
    ensures Report(lines) == Outcome(BlockLines(ms, 1, BlockLine) + Summary(ms), None)
  {
  }

  /**
   * The last line of a completed report lists, in increasing order, exactly
   * the positions of the blocks whose rate is negative.
   */
  lemma {:induction false} ReportFlagsNegative(lines: seq<string>) returns (ns: seq<nat>)
    requires Report(lines).failure.None?
    ensures var bs := SplitBlocks(lines); var w := Report(lines).written;
      |w| == |bs| + 6 && w[|bs| + 5] == SlowLabel + ListText(ns)
    ensures forall j :: 0 < j < |ns| ==> ns[j - 1] < ns[j]
    ensures var bs := SplitBlocks(lines);
      forall x :: x in ns <==> 1 <= x <= |bs| && MeasureBlock(bs[x - 1]).Ok?
                               && RateValue(MeasureBlock(bs[x - 1]).value) < 0.0
  {
    var bs := SplitBlocks(lines);
    MeasureAllPrefix(bs);
    var ms := MeasureAll(bs).0;
    CompletedLast(lines, bs, ms);
    SlowOfMeasures(bs, ms);
    ns := SlowList(ms, 1);
  }

  /** A completed report ends with the summary's list of slow blocks. */
  lemma {:induction false} CompletedLast(lines: seq<string>, bs: seq<seq<string>>, ms: seq<Measure>)
    requires bs == SplitBlocks(lines) && ms == MeasureAll(bs).0 && MeasureAll(bs).1.None? && |ms| == |bs|
    ensures |Report(lines).written| == |bs| + 6
    ensures Report(lines).written[|bs| + 5] == SlowLabel + ListText(SlowList(ms, 1))
  {
    ReportParts(lines, bs, ms);
    var w := Report(lines).written;
    assert w[|bs| + 5] == Summary(ms)[5];
  }

  /** The slow list of the measures of all blocks holds the positions of the negative rates. */
  lemma {:induction false} SlowOfMeasures(bs: seq<seq<string>>, ms: seq<Measure>)
    requires |ms| == |bs| && forall k :: 0 <= k < |bs| ==> MeasureBlock(bs[k]) == Ok(ms[k])
    ensures forall j :: 0 < j < |SlowList(ms, 1)| ==> SlowList(ms, 1)[j - 1] < SlowList(ms, 1)[j]
    ensures forall x :: x in SlowList(ms, 1) <==> 1 <= x <= |bs| && MeasureBlock(bs[x - 1]).Ok?
                                                  && RateValue(MeasureBlock(bs[x - 1]).value) < 0.0
  {
    SlowListSpec(ms, 1);
    forall k | 0 <= k < |ms|
      ensures Slow(ms[k]) <==> RateValue(ms[k]) < 0.0
    {
      RateSign(ms[k]);
    }
  }


  // ---------------------------------------------------------------------------
  // File names
  // ---------------------------------------------------------------------------

  /** The report's path: the input's without extension and without `.merge3`, plus `.count.txt`. */
  function OutputName(path: string): (r: string)
    ensures EndsWith(r, ".count.txt")
  {
    var base := SplitExt(path).0;
    (if EndsWith(base, ".merge3") then base[..|base| - 7] else base) + ".count.txt"
  }

  /** The report of `<stem>.merge3.srt` is `<stem>.count.txt`, whatever the stem. */
  lemma {:induction false} OutputOfMerge3(stem: string)
    ensures OutputName(stem + ".merge3.srt") == stem + ".count.txt"
  {
    var p := stem + ".merge3.srt";
    var n := |stem|;
    var sep := RFind(p, '/');
    var dot := RFind(p, '.');
    assert p[n + 7] == '.';
    assert forall j :: n <= j < |p| ==> p[j] != '/';
    assert forall j :: n + 7 < j < |p| ==> p[j] != '.';
    assert dot == n + 7;
    assert sep < n;
    assert p[n + 1] == 'm';
    assert NonDotIn(p, sep + 1, dot);
    var base := p[..dot];
    assert base == stem + ".merge3";
    assert EndsWith(base, ".merge3");
    assert base[..|base| - 7] == stem;
  }
}
