/**
 * The block side of new_merge.py: reading the `.merge3.srt` file as blocks of
 * lines, the two timing-line helpers, fusing flagged blocks into a neighbour,
 * and writing the surviving blocks renumbered from 1.
 */
module FusionMerge {
  import opened Wrappers
  import opened Text
  import opened Decimal
  import opened Timestamp
  import opened Blocks
  import Srt
  import opened NeighbourFusion

  // ---------------------------------------------------------------------------
  // Reading blocks
  // ---------------------------------------------------------------------------

  /** `[block.split('\n') for block in re.split(r'\n\s*\n', content.strip())]`. */
  function ParseSrtBlocks(content: string): (r: seq<seq<string>>)
    ensures |r| == |SplitBlank(Strip(content))| && |r| >= 1
    ensures forall k :: 0 <= k < |r| ==> |r[k]| >= 1
  {
    LinesOfEach(SplitBlank(Strip(content)))
  }

  /** Each piece split into its lines. */
  function LinesOfEach(parts: seq<string>): (r: seq<seq<string>>)
    ensures |r| == |parts|
    ensures forall k :: 0 <= k < |r| ==> |r[k]| >= 1 && Join(r[k], "\n") == parts[k]
  {
    seq(|parts|, k requires 0 <= k < |parts| => Split(parts[k], '\n'))
  }

  // ---------------------------------------------------------------------------
  // Timing lines
  // ---------------------------------------------------------------------------

  /** The position of the first element satisfying `p`, `|xs|` if none does. */
  function FirstWhere(xs: seq<string>, p: string -> bool): (k: nat)
    ensures k <= |xs|
    decreases |xs|
  {
    if |xs| == 0 || p(xs[0]) then 0 else 1 + FirstWhere(xs[1..], p)
  }

  /** The position found satisfies `p` and no earlier one does. */
  lemma {:induction false} FirstWhereSpec(xs: seq<string>, p: string -> bool)
    ensures FirstWhere(xs, p) < |xs| ==> p(xs[FirstWhere(xs, p)])
    ensures forall j :: 0 <= j < FirstWhere(xs, p) ==> !p(xs[j])
    decreases |xs|
  {
    if |xs| > 0 && !p(xs[0]) {
      FirstWhereSpec(xs[1..], p);
      forall j | 1 <= j < FirstWhere(xs, p) ensures !p(xs[j]) {
        assert xs[j] == xs[1..][j - 1];
      }
    }
  }

  /** Replacing the element found by another satisfying `p` leaves the position found unchanged. */
  lemma {:induction false} FirstWhereUpdate(xs: seq<string>, y: string, p: string -> bool)
    requires FirstWhere(xs, p) < |xs| && p(y)
    ensures FirstWhere(xs[FirstWhere(xs, p) := y], p) == FirstWhere(xs, p)
    decreases |xs|
  {
    if !p(xs[0]) {
      FirstWhereUpdate(xs[1..], y, p);
      assert xs[FirstWhere(xs, p) := y][1..] == xs[1..][FirstWhere(xs[1..], p) := y];
    }
  }

  /** The line reads as a timing line. */
  predicate Timed(line: string) {
    LooseTiming(line).Some?
  }

  /** The position of the first timing line, `|block|` if there is none. */
  function TimingIndex(block: seq<string>): (k: nat)
    ensures k <= |block|
  {
    FirstWhere(block, Timed)
  }

  /** The index found is a timing line and no earlier line is one. */
  lemma {:induction false} TimingIndexSpec(block: seq<string>)
    ensures TimingIndex(block) < |block| ==> Timed(block[TimingIndex(block)])
    ensures forall j :: 0 <= j < TimingIndex(block) ==> !Timed(block[j])
  {
    FirstWhereSpec(block, Timed);
  }

  /** The first `Some` that `f` gives along `xs`. */
  function FirstSome<T>(xs: seq<string>, f: string -> Option<T>): (r: Option<T>)
    decreases |xs|
  {
    if |xs| == 0 then None else if f(xs[0]).Some? then f(xs[0]) else FirstSome(xs[1..], f)
  }

  /** The first `Some` is what `f` gives at the first position where `p`, its `Some` test, holds. */
  lemma {:induction false} FirstSomeAt<T>(xs: seq<string>, f: string -> Option<T>, p: string -> bool)
    requires forall x :: p(x) == f(x).Some?
    ensures FirstSome(xs, f) == if FirstWhere(xs, p) < |xs| then f(xs[FirstWhere(xs, p)]) else None
    decreases |xs|
  {
    if |xs| > 0 && !p(xs[0]) {
      FirstSomeAt(xs[1..], f, p);
      assert FirstWhere(xs, p) == 1 + FirstWhere(xs[1..], p);
      if FirstWhere(xs, p) < |xs| {
        assert xs[FirstWhere(xs, p)] == xs[1..][FirstWhere(xs[1..], p)];
      }
    }
  }

  /** `get_timestamp`: the two timestamps of the first timing line; `(None, None)` is `None`. */
  function GetTimestamp(block: seq<string>): (r: Option<(string, string)>)
    ensures r.Some? ==> IsTimeStr(r.value.0) && IsTimeStr(r.value.1)
  {
    GetTimestampAt(block);
    FirstSome(block, LooseTiming)
  }

  /** The timestamps found are those of the line at `TimingIndex`. */
  lemma GetTimestampAt(block: seq<string>)
    ensures FirstSome(block, LooseTiming) == if TimingIndex(block) < |block| then LooseTiming(block[TimingIndex(block)]) else None
  {
    FirstSomeAt(block, LooseTiming, Timed);
  }

  /** `set_timestamp`: the first timing line replaced by `start --> end`; every other line, and a block without one, unchanged. */
  function SetTimestamp(block: seq<string>, start: string, end: string): (r: seq<string>)
    ensures |r| == |block|
    ensures forall j :: 0 <= j < |block| && j != TimingIndex(block) ==> r[j] == block[j]
    ensures GetTimestamp(block).None? ==> r == block
  {
    TimingIndexSpec(block);
    GetTimestampAt(block);
    if TimingIndex(block) < |block| then block[TimingIndex(block) := Srt.TimingLine(start, end)] else block
  }

  /** After setting, getting returns the timestamps just set. */
  lemma {:induction false} GetAfterSet(block: seq<string>, start: string, end: string)
    requires IsTimeStr(start) && IsTimeStr(end)
    requires GetTimestamp(block).Some?
    ensures GetTimestamp(SetTimestamp(block, start, end)) == Some((start, end))
  {
    GetTimestampAt(block);
    var k := TimingIndex(block);
    var t := Srt.TimingLine(start, end);
    var r := SetTimestamp(block, start, end);
    assert r == block[k := t];
    Srt.TimingLineRoundTrip(start, end);
    LooseOfStrict(t);
    FirstWhereUpdate(block, t, Timed);
    GetTimestampAt(r);
  }

  /** A block has timestamps exactly when one of its lines reads as a timing line. */
  lemma {:induction false} GetTimestampSome(block: seq<string>)
    ensures GetTimestamp(block).Some? <==> exists k :: 0 <= k < |block| && Timed(block[k])
  {
    TimingIndexSpec(block);
    GetTimestampAt(block);
  }

  /** The text the f-string prints for one end of a fused block's span. */
  function ShowTime(t: Option<string>): string {
    if t.Some? then t.value else "None"
  }

  /** The start of the first timing line, as printed. */
  function StartOf(block: seq<string>): string {
    ShowTime(if GetTimestamp(block).Some? then Some(GetTimestamp(block).value.0) else None)
  }

  /** The end of the first timing line, as printed. */
  function EndOf(block: seq<string>): string {
    ShowTime(if GetTimestamp(block).Some? then Some(GetTimestamp(block).value.1) else None)
  }

  // ---------------------------------------------------------------------------
  // Content lines
  // ---------------------------------------------------------------------------

  /** `re.match(r'^\d+$', l)`: digits only, `$` also matching before one final newline. */
  predicate NumberLine(l: string) {
    IsDigits(l) || (|l| >= 2 && l[|l| - 1] == '\n' && IsDigits(l[..|l| - 1]))
  }

  /** A line the merge keeps as content: neither a number nor starting like a timestamp. */
  predicate IsContent(l: string) {
    !NumberLine(l) && !StartsLikeTime(l)
  }

  /** The content lines of a block, in order. */
  function Content(block: seq<string>): seq<string> {
    Filter(block, IsContent)
  }

  /** Filtering is idempotent. */
  lemma {:induction false} ContentIdempotent(block: seq<string>)
    ensures Content(Content(block)) == Content(block)
  {
    FilterSound(block, IsContent);
    FilterAllKept(Content(block), IsContent);
  }

  // ---------------------------------------------------------------------------
  // Fusing flagged blocks
  // ---------------------------------------------------------------------------

  /** The working copy of the blocks and the positions fused away (`merged_indices`). */
  datatype Fusion = Fusion(merged: seq<seq<string>>, absorbed: set<int>)

  /** The message of Python's `IndexError` on a list. */
  const IndexError := "list index out of range"

  /** `block_rates.get(k, float('-inf'))`. */
  function RateOf(rates: map<nat, Num>, k: int): Rate {
    if k >= 0 && k in rates then Finite(rates[k]) else NegInf
  }

  /** The rate of the right neighbour of position `i`, minus infinity without one. */
  function RightRate(n: nat, i: int, rates: map<nat, Num>): Rate {
    if i + 1 < n then RateOf(rates, i + 2) else NegInf
  }

  /** The block at `i` goes left: the left neighbour exists, is still there, and rates at least the right one. */
  predicate GoesLeft(st: Fusion, i: int, rates: map<nat, Num>) {
    i - 1 >= 0 && AtLeast(RateOf(rates, i), RightRate(|st.merged|, i, rates)) && i - 1 !in st.absorbed
  }

  /** Failing that, it goes right when the right neighbour exists and is still there. */
  predicate GoesRight(st: Fusion, i: int) {
    i + 1 < |st.merged| && i + 1 !in st.absorbed
  }

  /** The fused block: the survivor's first line, the span from `a`'s start to `b`'s end, then the content of both. */
  function FusedBlock(head: string, a: seq<string>, b: seq<string>): seq<string> {
    [head, Srt.TimingLine(StartOf(a), EndOf(b))] + Content(a) + Content(b)
  }

  /** The left branch: the block at `i` is fused into the block before it. */
  function FuseLeft(st: Fusion, i: int): Result<Fusion>
    requires i >= 1
  {
    if i >= |st.merged| || |st.merged[i - 1]| == 0 then Err(IndexError)
    else Ok(Fusion(st.merged[i - 1 := FusedBlock(st.merged[i - 1][0], st.merged[i - 1], st.merged[i])],
                   st.absorbed + {i}))
  }

  /** The right branch: the block at `i` is fused into the block after it. */
  function FuseRight(st: Fusion, i: nat): Result<Fusion>
    requires i + 1 < |st.merged|
  {
    if |st.merged[i + 1]| == 0 then Err(IndexError)
    else Ok(Fusion(st.merged[i + 1 := FusedBlock(st.merged[i + 1][0], st.merged[i], st.merged[i + 1])],
                   st.absorbed + {i}))
  }

  /** The right branch for block number 0: Python's `merged[-1]` is the last block, fused into the first. */
  function FuseLastIntoFirst(st: Fusion): Result<Fusion>
    requires 0 < |st.merged|
  {
    if |st.merged[0]| == 0 then Err(IndexError)
    else Ok(Fusion(st.merged[0 := FusedBlock(st.merged[0][0], st.merged[|st.merged| - 1], st.merged[0])],
                   st.absorbed + {-1}))
  }

  /** The loop body for the flagged block number `idx`, that is position `idx - 1`. */
  function FuseStep(st: Fusion, idx: nat, rates: map<nat, Num>): (r: Result<Fusion>)
    ensures r.Ok? ==> |r.value.merged| == |st.merged|
    ensures r.Ok? ==> r.value.absorbed == st.absorbed || r.value.absorbed == st.absorbed + {idx - 1}
  {
    if idx - 1 in st.absorbed then Ok(st)
    else if GoesLeft(st, idx - 1, rates) then FuseLeft(st, idx - 1)
    else if GoesRight(st, idx - 1) then (if idx == 0 then FuseLastIntoFirst(st) else FuseRight(st, idx - 1))
    else Ok(st)
  }

  /** The loop over the flagged blocks in report order; the first exception ends it. */
  function FuseAll(st: Fusion, flags: seq<nat>, rates: map<nat, Num>): (r: Result<Fusion>)
    ensures r.Ok? ==> |r.value.merged| == |st.merged|
    decreases |flags|
  {
    if |flags| == 0 then Ok(st)
    else
      match FuseStep(st, flags[0], rates)
      case Err(e) => Err(e)
      case Ok(s) => FuseAll(s, flags[1..], rates)
  }

  /** A run that completes only ever adds positions, and only those of flagged block numbers. */
  lemma {:induction false} FuseAllAbsorbed(st: Fusion, flags: seq<nat>, rates: map<nat, Num>)
    requires FuseAll(st, flags, rates).Ok?
    ensures st.absorbed <= FuseAll(st, flags, rates).value.absorbed
    ensures forall x :: x in FuseAll(st, flags, rates).value.absorbed ==> x in st.absorbed || x + 1 in flags
    decreases |flags|
  {
    if |flags| > 0 {
      var s := FuseStep(st, flags[0], rates).value;
      var fin := FuseAll(st, flags, rates).value;
      assert fin == FuseAll(s, flags[1..], rates).value;
      FuseAllAbsorbed(s, flags[1..], rates);
      forall x | x in fin.absorbed && x !in st.absorbed
        ensures x + 1 in flags
      {
        if x in s.absorbed {
          assert x + 1 == flags[0];
        } else {
          assert x + 1 in flags[1..];
        }
      }
    }
  }

  /** The blocks at positions below `k` that were not fused away, in order. */
  function Survivors<T>(m: seq<T>, a: set<int>, k: nat): (r: seq<T>)
    requires k <= |m|
    ensures |r| <= k
    decreases k
  {
    if k == 0 then [] else Survivors(m, a, k - 1) + (if k - 1 in a then [] else [m[k - 1]])
  }

  /**
   * `merge_blocks`: fuse every flagged block, then keep the blocks not fused
   * away.  Well-formed blocks flagged inside the file merge without error,
   * stay well formed and keep every content line, in order.
   */
  function MergeBlocks(blocks: seq<seq<string>>, flags: seq<nat>, rates: map<nat, Num>): (r: Result<seq<seq<string>>>)
    ensures r.Ok? ==> |r.value| <= |blocks|
    ensures (forall k :: 0 <= k < |blocks| ==> Wellformed(blocks[k])) &&
            (forall j :: 0 <= j < |flags| ==> 1 <= flags[j] <= |blocks|) ==>
      r.Ok? && ContentOf(r.value) == ContentOf(blocks) && forall k :: 0 <= k < |r.value| ==> Wellformed(r.value[k])
  {
    MergedContentKept(blocks, flags, rates);
    match FuseAll(Fusion(blocks, {}), flags, rates)
    case Err(e) => Err(e)
    case Ok(st) => Ok(Survivors(st.merged, st.absorbed, |st.merged|))
  }

  // ---------------------------------------------------------------------------
  // The fused block
  // ---------------------------------------------------------------------------

  /** A block as the merging stages write it: a number line first, and a timing line somewhere. */
  predicate Wellformed(b: seq<string>) {
    |b| >= 1 && NumberLine(b[0]) && TimingIndex(b) < |b|
  }

  /** A well-formed block has timestamps. */
  lemma {:induction false} WellformedTimed(b: seq<string>)
    requires Wellformed(b)
    ensures GetTimestamp(b).Some?
  {
    TimingIndexSpec(b);
    GetTimestampAt(b);
  }

  /** A number line neither reads as a timing line nor starts like a timestamp. */
  lemma {:induction false} NumberLineNotTime(l: string)
    requires NumberLine(l)
    ensures !Timed(l) && !StartsLikeTime(l)
  {
    if |l| >= 8 {
      assert IsDigit(l[2]);
      if |l| >= 12 { assert l[..12][2] == l[2]; }
    }
  }

  /** A timing line starts like a timestamp, so it is never content. */
  lemma {:induction false} TimingLineNotContent(start: string, end: string)
    requires IsTimeStr(start) && IsTimeStr(end)
    ensures Timed(Srt.TimingLine(start, end)) && !IsContent(Srt.TimingLine(start, end))
  {
    var t := Srt.TimingLine(start, end);
    Srt.TimingLineRoundTrip(start, end);
    LooseOfStrict(t);
    assert t[..12] == start;
    assert t[0] == start[0] && t[1] == start[1] && t[2] == start[2] && t[3] == start[3];
    assert t[4] == start[4] && t[5] == start[5] && t[6] == start[6] && t[7] == start[7];
  }

  /** Fusing blocks with timestamps under a number line gives a well-formed block spanning
      from the first block's start to the second block's end, holding exactly the content of both. */
  lemma {:induction false} FusedShape(head: string, a: seq<string>, b: seq<string>)
    requires NumberLine(head) && GetTimestamp(a).Some? && GetTimestamp(b).Some?
    ensures Wellformed(FusedBlock(head, a, b))
    ensures GetTimestamp(FusedBlock(head, a, b)) == Some((GetTimestamp(a).value.0, GetTimestamp(b).value.1))
    ensures Content(FusedBlock(head, a, b)) == Content(a) + Content(b)
  {
    FusedTiming(head, StartOf(a), EndOf(b), Content(a) + Content(b));
    assert FusedBlock(head, a, b) == [head, Srt.TimingLine(StartOf(a), EndOf(b))] + (Content(a) + Content(b));
    TimingLineNotContent(StartOf(a), EndOf(b));
    FusedContent(head, Srt.TimingLine(StartOf(a), EndOf(b)), Content(a), Content(b));
    ContentIdempotent(a);
    ContentIdempotent(b);
  }

  /** A number line followed by a timing line puts that timing line first. */
  lemma {:induction false} FusedTiming(head: string, start: string, end: string, rest: seq<string>)
    requires NumberLine(head) && IsTimeStr(start) && IsTimeStr(end)
    ensures TimingIndex([head, Srt.TimingLine(start, end)] + rest) == 1
    ensures GetTimestamp([head, Srt.TimingLine(start, end)] + rest) == Some((start, end))
  {
    var t := Srt.TimingLine(start, end);
    var n := [head, t] + rest;
    NumberLineNotTime(head);
    TimingLineNotContent(start, end);
    assert n[0] == head && n[1..][0] == t;
    assert FirstWhere(n, Timed) == 1;
    Srt.TimingLineRoundTrip(start, end);
    LooseOfStrict(t);
    GetTimestampAt(n);
  }

  /** Neither the number line nor the timing line is content. */
  lemma {:induction false} FusedContent(head: string, t: string, x: seq<string>, y: seq<string>)
    requires NumberLine(head) && !IsContent(t)
    ensures Content([head, t] + (x + y)) == Content(x) + Content(y)
  {
    NumberLineNotTime(head);
    var n := [head, t] + (x + y);
    assert n[1..] == [t] + (x + y);
    assert n[1..][1..] == x + y;
    assert Content(n) == Filter(n[1..], IsContent);
    assert Filter(n[1..], IsContent) == Content(x + y);
    FilterAppend(x, y, IsContent);
  }

  // ---------------------------------------------------------------------------
  // Content is conserved
  // ---------------------------------------------------------------------------

  /** The lists `c(x)` of the elements `x` of `xs`, one after another. */
  function FlatMap<T, U>(xs: seq<T>, c: T -> seq<U>): seq<U>
    decreases |xs|
  {
    if |xs| == 0 then [] else FlatMap(xs[..|xs| - 1], c) + c(xs[|xs| - 1])
  }

  /** The content lines of a list of blocks, block after block. */
  function ContentOf(bs: seq<seq<string>>): seq<string> {
    FlatMap(bs, Content)
  }

  /** The lists `c(m[j])` of the positions `j` below `k` not fused away, one after another. */
  function Kept<T, U>(m: seq<T>, a: set<int>, k: nat, c: T -> seq<U>): seq<U>
    requires k <= |m|
    decreases k
  {
    if k == 0 then [] else Kept(m, a, k - 1, c) + (if k - 1 in a then [] else c(m[k - 1]))
  }

  /** What the survivors hold is what is kept. */
  lemma {:induction false} SurvivorsKept<T, U>(m: seq<T>, a: set<int>, k: nat, c: T -> seq<U>)
    requires k <= |m|
    ensures FlatMap(Survivors(m, a, k), c) == Kept(m, a, k, c)
    decreases k
  {
    if k > 0 {
      SurvivorsKept(m, a, k - 1, c);
      var s := Survivors(m, a, k - 1);
      if k - 1 in a {
        assert s + [] == s;
        assert Kept(m, a, k - 1, c) + [] == Kept(m, a, k - 1, c);
      } else {
        var t := s + [m[k - 1]];
        assert t[..|s|] == s && t[|s|] == m[k - 1];
      }
    }
  }

  /** With nothing fused away every block survives. */
  lemma {:induction false} SurvivorsNone<T>(m: seq<T>, k: nat)
    requires k <= |m|
    ensures Survivors(m, {}, k) == m[..k]
    decreases k
  {
    if k > 0 {
      SurvivorsNone(m, k - 1);
      assert m[..k] == m[..k - 1] + [m[k - 1]];
    }
  }

  /** Replacing the element at `p` and fusing away position `q`, both outside `k0..k`, changes
      nothing kept over that range. */
  lemma {:induction false} AgreeOutside<T, U>(m: seq<T>, a: set<int>, p: nat, v: T, q: int, k0: nat, k: nat, c: T -> seq<U>)
    requires p < |m| && k0 <= k <= |m|
    requires (p < k0 || p >= k) && (q < k0 || q >= k)
    requires Kept(m, a, k0, c) == Kept(m[p := v], a + {q}, k0, c)
    ensures Kept(m, a, k, c) == Kept(m[p := v], a + {q}, k, c)
    decreases k
  {
    if k > k0 {
      AgreeOutside(m, a, p, v, q, k0, k - 1, c);
      assert m[p := v][k - 1] == m[k - 1];
      assert k - 1 in a + {q} <==> k - 1 in a;
    }
  }

  /** Replacing the element at `i - 1` by one holding what both `i - 1` and `i` held, and
      fusing away `i`, keeps what is kept. */
  lemma {:induction false} LeftKeeps<T, U>(m: seq<T>, a: set<int>, i: nat, v: T, c: T -> seq<U>)
    requires 1 <= i < |m| && i - 1 !in a && i !in a
    requires c(v) == c(m[i - 1]) + c(m[i])
    ensures Kept(m[i - 1 := v], a + {i}, |m|, c) == Kept(m, a, |m|, c)
  {
    var k := i - 1;
    var m', a' := m[k := v], a + {i};
    AgreeOutside(m, a, k, v, i, 0, k, c);
    var x := Kept(m, a, k, c);
    assert Kept(m', a', k + 2, c) == x + c(v) by {
      assert m'[k] == v && k !in a' && k + 1 in a';
      assert Kept(m', a', k + 1, c) == x + c(v);
      assert x + c(v) + [] == x + c(v);
    }
    assert Kept(m, a, k + 2, c) == x + c(v) by {
      assert (x + c(m[k])) + c(m[k + 1]) == x + (c(m[k]) + c(m[k + 1]));
    }
    AgreeOutside(m, a, k, v, i, k + 2, |m|, c);
  }

  /** Replacing the element at `k + 1` by one holding what both `k` and `k + 1` held, and fusing
      away `k`, keeps what is kept. */
  lemma {:induction false} RightKeeps<T, U>(m: seq<T>, a: set<int>, k: nat, v: T, c: T -> seq<U>)
    requires k + 1 < |m| && k !in a && k + 1 !in a
    requires c(v) == c(m[k]) + c(m[k + 1])
    ensures Kept(m[k + 1 := v], a + {k}, |m|, c) == Kept(m, a, |m|, c)
  {
    var m', a' := m[k + 1 := v], a + {k};
    AgreeOutside(m, a, k + 1, v, k, 0, k, c);
    var x := Kept(m, a, k, c);
    assert Kept(m', a', k + 2, c) == x + c(v) by {
      assert m'[k + 1] == v && k in a' && k + 1 !in a';
      assert Kept(m', a', k + 1, c) == x + [];
      assert x + [] == x;
    }
    assert Kept(m, a, k + 2, c) == x + c(v) by {
      assert (x + c(m[k])) + c(m[k + 1]) == x + (c(m[k]) + c(m[k + 1]));
    }
    AgreeOutside(m, a, k + 1, v, k, k + 2, |m|, c);
  }

  // ---------------------------------------------------------------------------
  // The whole merge
  // ---------------------------------------------------------------------------

  /** Every element at a position not fused away satisfies `ok`. */
  predicate Live<T>(m: seq<T>, a: set<int>, ok: T -> bool) {
    forall k :: 0 <= k < |m| && k !in a ==> ok(m[k])
  }

  /** The element at `i` and its neighbours, where still there, satisfy `ok`. */
  predicate NeighboursOk<T>(m: seq<T>, a: set<int>, i: nat, ok: T -> bool) {
    i < |m|
    && (i !in a ==> ok(m[i]))
    && (0 < i && i - 1 !in a ==> ok(m[i - 1]))
    && (i + 1 < |m| && i + 1 !in a ==> ok(m[i + 1]))
  }

  /** Where every element still there satisfies `ok`, so do the neighbours of any position. */
  lemma LiveNeighbours<T>(m: seq<T>, a: set<int>, i: nat, ok: T -> bool)
    requires Live(m, a, ok) && i < |m|
    ensures NeighboursOk(m, a, i, ok)
  {
  }

  /** Replacing an element by one satisfying `ok` and fusing away one more position keeps `Live`. */
  lemma {:induction false} ReplaceLive<T>(m: seq<T>, a: set<int>, p: nat, v: T, q: int, ok: T -> bool)
    requires Live(m, a, ok) && p < |m| && ok(v)
    ensures Live(m[p := v], a + {q}, ok)
  {
  }

  /** Every survivor satisfies `ok` when every element still there does. */
  lemma {:induction false} SurvivorsLive<T>(m: seq<T>, a: set<int>, k: nat, ok: T -> bool)
    requires k <= |m| && Live(m, a, ok)
    ensures forall j :: 0 <= j < |Survivors(m, a, k)| ==> ok(Survivors(m, a, k)[j])
    decreases k
  {
    if k > 0 {
      SurvivorsLive(m, a, k - 1, ok);
      var s := Survivors(m, a, k - 1);
      if k - 1 in a {
        assert s + [] == s;
      } else {
        assert forall j :: 0 <= j < |s| ==> (s + [m[k - 1]])[j] == s[j];
      }
    }
  }

  /** Only real positions are fused away, and every block still there is well formed. */
  predicate LiveWellformed(st: Fusion) {
    InRange(st.absorbed, |st.merged|) && Live(st.merged, st.absorbed, Wellformed)
  }

  /** Every position in `a` is below `n`. */
  predicate InRange(a: set<int>, n: nat) {
    forall x :: x in a ==> 0 <= x < n
  }

  /** A step either leaves the state alone or puts a well-formed block `v` holding the content
      of the block at `idx - 1` and its neighbour at `p` in place of that neighbour. */
  lemma {:induction false} FuseStepOutcome(st: Fusion, idx: nat, rates: map<nat, Num>) returns (p: int, v: seq<string>, s: Fusion)
    requires 1 <= idx <= |st.merged| && NeighboursOk(st.merged, st.absorbed, idx - 1, Wellformed)
    ensures FuseStep(st, idx, rates) == Ok(s) && Stepped(st, idx - 1, p, v, s)
  {
    var i := idx - 1;
    if i !in st.absorbed && GoesLeft(st, i, rates) {
      p, v, s := StepLeft(st, idx);
    } else if i !in st.absorbed && GoesRight(st, i) {
      p, v, s := StepRight(st, idx);
    } else {
      p, v, s := -1, [], st;
    }
  }

  /** The left branch on well-formed blocks puts a well-formed block holding the content
      of both blocks in place of the block before `idx - 1`. */
  lemma {:induction false} StepLeft(st: Fusion, idx: nat) returns (p: int, v: seq<string>, s: Fusion)
    requires 2 <= idx <= |st.merged| && idx - 1 !in st.absorbed && idx - 2 !in st.absorbed
    requires Wellformed(st.merged[idx - 2]) && Wellformed(st.merged[idx - 1])
    ensures FuseLeft(st, idx - 1) == Ok(s) && Stepped(st, idx - 1, p, v, s)
  {
    var m := st.merged;
    p := idx - 2;
    WellformedTimed(m[p]);
    WellformedTimed(m[idx - 1]);
    v := FusedBlock(m[p][0], m[p], m[idx - 1]);
    FusedShape(m[p][0], m[p], m[idx - 1]);
    s := Fusion(m[p := v], st.absorbed + {idx - 1});
  }

  /** The right branch on well-formed blocks puts a well-formed block holding the content
      of both blocks in place of the block after `idx - 1`. */
  lemma {:induction false} StepRight(st: Fusion, idx: nat) returns (p: int, v: seq<string>, s: Fusion)
    requires 1 <= idx < |st.merged| && idx - 1 !in st.absorbed && idx !in st.absorbed
    requires Wellformed(st.merged[idx - 1]) && Wellformed(st.merged[idx])
    ensures FuseRight(st, idx - 1) == Ok(s) && Stepped(st, idx - 1, p, v, s)
  {
    var m := st.merged;
    p := idx;
    WellformedTimed(m[idx - 1]);
    WellformedTimed(m[p]);
    v := FusedBlock(m[p][0], m[idx - 1], m[p]);
    s := Fusion(m[p := v], st.absorbed + {idx - 1});
    FusedShape(m[p][0], m[idx - 1], m[p]);
  }

  /** `s` is `st` unchanged (`p` is -1), or `st` with the block at `i` fused into its neighbour at `p`, giving `v`. */
  predicate Stepped(st: Fusion, i: nat, p: int, v: seq<string>, s: Fusion) {
    if p == -1 then s == st
    else Fused(st.merged, st.absorbed, i, p, v, Wellformed, Content) && s == Fusion(st.merged[p := v], st.absorbed + {i})
  }

  /** A step keeps the invariant and the content kept. */
  lemma {:induction false} SteppedKeeps(st: Fusion, i: nat, p: int, v: seq<string>, s: Fusion)
    requires LiveWellformed(st) && Stepped(st, i, p, v, s)
    ensures LiveWellformed(s) && |s.merged| == |st.merged|
    ensures Kept(s.merged, s.absorbed, |st.merged|, Content) == Kept(st.merged, st.absorbed, |st.merged|, Content)
  {
    if p != -1 {
      FusedKeeps(st.merged, st.absorbed, i, p, v, Wellformed, Content);
    }
  }

  /** The element at `i` and its live neighbour at `p` are fused into `v`, which satisfies `ok`
      and has, under `c`, what both had, in order. */
  predicate Fused<T, U(==)>(m: seq<T>, a: set<int>, i: nat, p: int, v: T, ok: T -> bool, c: T -> seq<U>) {
    i < |m| && (p == i - 1 || p == i + 1) && 0 <= p < |m| && i !in a && p !in a && ok(v)
    && c(v) == if p < i then c(m[p]) + c(m[i]) else c(m[i]) + c(m[p])
  }

  /** A fusion keeps the invariant and what is kept. */
  lemma {:induction false} FusedKeeps<T, U>(m: seq<T>, a: set<int>, i: nat, p: int, v: T, ok: T -> bool, c: T -> seq<U>)
    requires InRange(a, |m|) && Live(m, a, ok) && Fused(m, a, i, p, v, ok, c)
    ensures InRange(a + {i}, |m[p := v]|) && Live(m[p := v], a + {i}, ok)
    ensures Kept(m[p := v], a + {i}, |m|, c) == Kept(m, a, |m|, c)
  {
    ReplaceLive(m, a, p, v, i, ok);
    if p < i {
      LeftKeeps(m, a, i, v, c);
    } else {
      RightKeeps(m, a, i, v, c);
    }
  }

  /** The loop over block numbers inside the file keeps the invariant and the content kept. */
  lemma {:induction false} FuseAllKeeps(st: Fusion, flags: seq<nat>, rates: map<nat, Num>)
    requires LiveWellformed(st)
    requires forall j :: 0 <= j < |flags| ==> 1 <= flags[j] <= |st.merged|
    ensures FuseAll(st, flags, rates).Ok? && LiveWellformed(FuseAll(st, flags, rates).value)
    ensures Kept(FuseAll(st, flags, rates).value.merged, FuseAll(st, flags, rates).value.absorbed, |st.merged|, Content)
         == Kept(st.merged, st.absorbed, |st.merged|, Content)
    decreases |flags|
  {
    if |flags| > 0 {
      var s := FuseHead(st, flags[0], rates);
      assert FuseAll(st, flags, rates) == FuseAll(s, flags[1..], rates);
      FuseAllKeeps(s, flags[1..], rates);
    }
  }

  /** One flagged number inside the file keeps the invariant and the content kept. */
  lemma {:induction false} FuseHead(st: Fusion, idx: nat, rates: map<nat, Num>) returns (s: Fusion)
    requires LiveWellformed(st) && 1 <= idx <= |st.merged|
    ensures FuseStep(st, idx, rates) == Ok(s) && LiveWellformed(s) && |s.merged| == |st.merged|
    ensures Kept(s.merged, s.absorbed, |st.merged|, Content) == Kept(st.merged, st.absorbed, |st.merged|, Content)
  {
    LiveNeighbours(st.merged, st.absorbed, idx - 1, Wellformed);
    var p, v;
    p, v, s := FuseStepOutcome(st, idx, rates);
    SteppedKeeps(st, idx - 1, p, v, s);
  }

  /** Merging well-formed blocks on flagged numbers inside the file succeeds, leaves well-formed
      blocks, and keeps every content line of the input, in order. */
  lemma {:induction false} MergedContentKept(blocks: seq<seq<string>>, flags: seq<nat>, rates: map<nat, Num>)
    ensures (forall k :: 0 <= k < |blocks| ==> Wellformed(blocks[k])) &&
            (forall j :: 0 <= j < |flags| ==> 1 <= flags[j] <= |blocks|) ==>
      && FuseAll(Fusion(blocks, {}), flags, rates).Ok?
      && var fin := FuseAll(Fusion(blocks, {}), flags, rates).value;
         var out := Survivors(fin.merged, fin.absorbed, |fin.merged|);
         ContentOf(out) == ContentOf(blocks) && forall k :: 0 <= k < |out| ==> Wellformed(out[k])
  {
    if (forall k :: 0 <= k < |blocks| ==> Wellformed(blocks[k])) &&
       (forall j :: 0 <= j < |flags| ==> 1 <= flags[j] <= |blocks|) {
      var st := Fusion(blocks, {});
      FuseAllKeeps(st, flags, rates);
      var fin := FuseAll(st, flags, rates).value;
      SurvivorsKept(fin.merged, fin.absorbed, |blocks|, Content);
      SurvivorsKept(blocks, {}, |blocks|, Content);
      SurvivorsNone(blocks, |blocks|);
      assert blocks[..|blocks|] == blocks;
      SurvivorsLive(fin.merged, fin.absorbed, |blocks|, Wellformed);
    }
  }

  /** A flag past the last block makes `merge_blocks` raise `IndexError`: the left neighbour
      exists and rates at least minus infinity, so the left branch reads the missing block. */
  lemma FlagPastEnd(blocks: seq<seq<string>>, rates: map<nat, Num>)
    requires |blocks| >= 1
    ensures MergeBlocks(blocks, [|blocks| + 1], rates) == Err(IndexError)
  {
    var st := Fusion(blocks, {});
    assert GoesLeft(st, |blocks|, rates);
    assert FuseStep(st, |blocks| + 1, rates) == Err(IndexError);
  }

  // ---------------------------------------------------------------------------
  // Writing blocks
  // ---------------------------------------------------------------------------

  /** The message of Python's `IndexError` on assigning into an empty list. */
  const AssignError := "list assignment index out of range"

  /** The lines after the first of each block. */
  function Tails(blocks: seq<seq<string>>): (r: seq<seq<string>>)
    ensures |r| == |blocks|
  {
    seq(|blocks|, k requires 0 <= k < |blocks| => Tail(blocks[k]))
  }

  /** The lines after the first, none for an empty block. */
  function Tail(b: seq<string>): seq<string> {
    if |b| == 0 then [] else b[1..]
  }

  /**
   * `write_srt_blocks`: the first line of block `k` set to `k + 1`, the lines
   * joined by newlines and every block followed by an empty line.  An empty
   * block raises `IndexError` on the assignment.  Blocks whose lines after
   * the first are visible single lines read back renumbered.
   */
  function WriteSrtBlocks(blocks: seq<seq<string>>): (r: Result<string>)
    ensures |blocks| == 0 ==> r == Ok("")
    ensures |blocks| >= 1 && (forall k :: 0 <= k < |blocks| ==> Writable(blocks[k])) ==>
      r.Ok? && ParseSrtBlocks(r.value) == Renumbered(blocks)
  {
    WrittenReadsBack(blocks);
    if exists k :: 0 <= k < |blocks| && |blocks[k]| == 0 then Err(AssignError)
    else Ok(Concat(Srt.Terminated(Srt.Numbered(Tails(blocks), 1))))
  }

  /** The blocks as written: block `k` under the number `k + 1`, its other lines unchanged. */
  function Renumbered(blocks: seq<seq<string>>): (r: seq<seq<string>>)
    ensures |r| == |blocks|
  {
    seq(|blocks|, k requires 0 <= k < |blocks| => [IntToString(k + 1)] + Tail(blocks[k]))
  }

  /** A block that reads back as written: its lines after the first are visible single lines. */
  predicate Writable(b: seq<string>) {
    |b| >= 1 && forall k :: 1 <= k < |b| ==> Srt.VisibleLine(b[k]) && !HasChar(b[k], '\n')
  }

  /** A numbered block over visible single lines is separable and splits back into its lines. */
  lemma {:induction false} NumberedBody(n: nat, tail: seq<string>)
    requires forall j :: 0 <= j < |tail| ==> Srt.VisibleLine(tail[j]) && !HasChar(tail[j], '\n')
    ensures SeparableBlock(Srt.NumberedBlock(n, tail))
    ensures Split(Srt.NumberedBlock(n, tail), '\n') == [IntToString(n)] + tail
  {
    var lines := [IntToString(n)] + tail;
    Srt.NumberVisible(n);
    forall j | 0 <= j < |lines|
      ensures |lines[j]| > 0 && !IsSpace(lines[j][0]) && !IsSpace(lines[j][|lines[j]| - 1])
      ensures !HasChar(lines[j], '\n')
    {
      if j >= 1 {
        assert lines[j] == tail[j - 1];
      }
    }
    JoinedLinesBlankFree(lines);
    Srt.NumberedBlockLines(n, tail);
  }

  /** Written block `k` is separable and splits back into the renumbered block. */
  lemma {:induction false} WrittenBody(blocks: seq<seq<string>>, k: nat)
    requires k < |blocks| && forall j :: 0 <= j < |blocks| ==> Writable(blocks[j])
    ensures SeparableBlock(Srt.Numbered(Tails(blocks), 1)[k])
    ensures Split(Srt.Numbered(Tails(blocks), 1)[k], '\n') == Renumbered(blocks)[k]
  {
    var b := blocks[k];
    assert Writable(b);
    var tail := Tail(b);
    assert Tails(blocks)[k] == tail;
    forall j | 0 <= j < |tail| ensures Srt.VisibleLine(tail[j]) && !HasChar(tail[j], '\n') {
      assert tail[j] == b[j + 1];
    }
    NumberedBody(k + 1, tail);
  }

  /** The written file is the numbered bodies joined by empty lines, plus a final empty line. */
  lemma {:induction false} WrittenText(blocks: seq<seq<string>>) returns (bodies: seq<string>)
    requires |blocks| >= 1 && forall k :: 0 <= k < |blocks| ==> Writable(blocks[k])
    ensures bodies == Srt.Numbered(Tails(blocks), 1)
    ensures Concat(Srt.Terminated(bodies)) == Join(bodies, "\n\n") + "\n\n"
    ensures forall k :: 0 <= k < |bodies| ==> SeparableBlock(bodies[k]) && Split(bodies[k], '\n') == Renumbered(blocks)[k]
  {
    bodies := Srt.Numbered(Tails(blocks), 1);
    forall k | 0 <= k < |bodies|
      ensures SeparableBlock(bodies[k]) && Split(bodies[k], '\n') == Renumbered(blocks)[k]
    {
      WrittenBody(blocks, k);
    }
    Srt.TerminatedConcat(bodies);
  }

  /** Reading `x + "\n\n"` for separable bodies joined by empty lines gives the lines of each body. */
  lemma {:induction false} ParseJoined(bodies: seq<string>, x: string)
    requires |bodies| >= 1 && forall k :: 0 <= k < |bodies| ==> SeparableBlock(bodies[k])
    requires x == Join(bodies, "\n\n")
    ensures ParseSrtBlocks(x + "\n\n") == LinesOfEach(bodies)
  {
    JoinFirstChar(bodies);
    JoinLastChar(bodies, "\n\n");
    Srt.StripTerminated(x);
    SplitBlankOfJoin(bodies);
  }

  /**
   * The written text of at least one block whose lines after the first are
   * visible single lines reads back as the blocks renumbered 1, 2, … with all
   * their other lines, in order; no blocks give the empty text.
   */
  lemma {:induction false} WrittenReadsBack(blocks: seq<seq<string>>)
    ensures |blocks| >= 1 && (forall k :: 0 <= k < |blocks| ==> Writable(blocks[k])) ==>
      ParseSrtBlocks(Concat(Srt.Terminated(Srt.Numbered(Tails(blocks), 1)))) == Renumbered(blocks)
    ensures |blocks| == 0 ==> Concat(Srt.Terminated(Srt.Numbered(Tails(blocks), 1))) == ""
  {
    if |blocks| == 0 {
      assert Srt.Numbered(Tails(blocks), 1) == [];
    } else if forall k :: 0 <= k < |blocks| ==> Writable(blocks[k]) {
      var bodies := WrittenText(blocks);
      ParseJoined(bodies, Join(bodies, "\n\n"));
      LinesOfEachIs(bodies, Renumbered(blocks));
    }
  }

  lemma LinesOfEachIs(parts: seq<string>, r: seq<seq<string>>)
    requires |r| == |parts| && forall k :: 0 <= k < |parts| ==> Split(parts[k], '\n') == r[k]
    ensures LinesOfEach(parts) == r
  {
  }


  /** An empty file reads back as one block holding one empty line. */
  lemma EmptyFileParses()
    ensures ParseSrtBlocks("") == [[""]]
  {
    assert Strip("") == "";
    MatcherBlankSep();
    assert FirstMatch("", BlankSepLen) == 0;
    assert SplitBlank("") == [""];
    assert IndexOfChar("", '\n') == 0;
    assert Split("", '\n') == [""];
  }

  /** An empty block makes writing fail, and writing fails only for an empty block. */
  lemma EmptyBlockFails(blocks: seq<seq<string>>)
    ensures WriteSrtBlocks(blocks).Err? <==> exists k :: 0 <= k < |blocks| && |blocks[k]| == 0
    ensures WriteSrtBlocks(blocks).Err? ==> WriteSrtBlocks(blocks).error == AssignError
  {
  }

  // ---------------------------------------------------------------------------
  // One file set
  // ---------------------------------------------------------------------------

  /** The report of a base name. */
  function CountFile(base: string): string {
    base + CountSuffix
  }

  /** The file name suffix of a report. */
  const CountSuffix := ".count.txt"

  /** The input of a base name. */
  function InputSrt(base: string): string {
    base + ".merge3.srt"
  }

  /** The output of a base name. */
  function OutputSrt(base: string): string {
    base + ".merge4.srt"
  }

  /** How `process_file_set` ends: an input is missing, an exception was caught, or the output was written. */
  datatype Outcome = Missing(path: string) | Failed(error: string) | Written(output: string)

  /**
   * `process_file_set`, with each input file given as its contents when it
   * exists.  It returns `True` exactly for `Written`, which carries the text of
   * the `.merge4.srt` file.
   */
  function ProcessFileSet(base: string, count: Option<string>, srt: Option<string>): (r: Outcome)
    ensures r.Written? ==> count.Some? && srt.Some?
    ensures count.None? ==> r == Missing(CountFile(base))
    ensures count.Some? && srt.None? ==> r == Missing(InputSrt(base))
  {
    if count.None? then Missing(CountFile(base))
    else if srt.None? then Missing(InputSrt(base))
    else
      match ParseRates(Split(count.value, '\n'))
      case Err(e) => Failed(e)
      case Ok(rates) =>
        match MergeBlocks(ParseSrtBlocks(srt.value), ParseNegatives(count.value), rates)
        case Err(e) => Failed(e)
        case Ok(merged) =>
          match WriteSrtBlocks(merged)
          case Err(e) => Failed(e)
          case Ok(text) => Written(text)
  }

  /**
   * A file set whose report flags only blocks inside the file and whose rates
   * parse, over blocks as the merging stages write them, is written: the
   * output is the merged blocks, which hold every content line of the input
   * in order.
   */
  lemma {:induction false} ProcessWrites(base: string, count: string, srt: string,
                                         bs: seq<seq<string>>, flags: seq<nat>, rates: map<nat, Num>)
    requires ParseRates(Split(count, '\n')) == Ok(rates)
    requires bs == ParseSrtBlocks(srt) && flags == ParseNegatives(count)
    requires forall k :: 0 <= k < |bs| ==> Wellformed(bs[k])
    requires forall j :: 0 <= j < |flags| ==> 1 <= flags[j] <= |bs|
    ensures MergeBlocks(bs, flags, rates).Ok?
    ensures ContentOf(MergeBlocks(bs, flags, rates).value) == ContentOf(bs)
    ensures WriteSrtBlocks(MergeBlocks(bs, flags, rates).value).Ok?
    ensures ProcessFileSet(base, Some(count), Some(srt)) == Written(WriteSrtBlocks(MergeBlocks(bs, flags, rates).value).value)
  {
    var merged := MergedWrites(bs, flags, rates);
    ProcessOk(base, count, srt, rates, merged, WriteSrtBlocks(merged).value);
  }

  /** Merging well-formed blocks on flags inside the file gives blocks that write without error. */
  lemma {:induction false} MergedWrites(bs: seq<seq<string>>, flags: seq<nat>, rates: map<nat, Num>)
    returns (merged: seq<seq<string>>)
    requires forall k :: 0 <= k < |bs| ==> Wellformed(bs[k])
    requires forall j :: 0 <= j < |flags| ==> 1 <= flags[j] <= |bs|
    ensures MergeBlocks(bs, flags, rates) == Ok(merged)
    ensures ContentOf(merged) == ContentOf(bs)
    ensures WriteSrtBlocks(merged).Ok?
  {
    merged := MergeBlocks(bs, flags, rates).value;
    EmptyBlockFails(merged);
  }

  /** The path through `process_file_set` on which nothing raises. */
  lemma ProcessOk(base: string, count: string, srt: string, rates: map<nat, Num>, merged: seq<seq<string>>, text: string)
    requires ParseRates(Split(count, '\n')) == Ok(rates)
    requires MergeBlocks(ParseSrtBlocks(srt), ParseNegatives(count), rates) == Ok(merged)
    requires WriteSrtBlocks(merged) == Ok(text)
    ensures ProcessFileSet(base, Some(count), Some(srt)) == Written(text)
  {
  }

  /** `find_base_names`: the names of the reports, each with `.count.txt` removed wherever it occurs. */
  function FindBaseNames(names: seq<string>): (r: seq<string>)
    ensures |r| <= |names|
    decreases |names|
  {
    if |names| == 0 then []
    else (if EndsWith(names[0], CountSuffix) then [BaseName(names[0])] else []) + FindBaseNames(names[1..])
  }

  /** The base names are those of exactly the report names among `names`. */
  lemma {:induction false} FindBaseNamesSpec(names: seq<string>)
    ensures forall x :: x in FindBaseNames(names) <==>
      exists k :: 0 <= k < |names| && EndsWith(names[k], CountSuffix) && BaseName(names[k]) == x
    decreases |names|
  {
    if |names| > 0 {
      FindBaseNamesSpec(names[1..]);
      forall x | (exists k :: 0 <= k < |names| && EndsWith(names[k], CountSuffix) && BaseName(names[k]) == x)
        ensures x in FindBaseNames(names)
      {
        var k :| 0 <= k < |names| && EndsWith(names[k], CountSuffix) && BaseName(names[k]) == x;
        if k > 0 {
          assert names[1..][k - 1] == names[k];
        }
      }
      forall x | x in FindBaseNames(names[1..])
        ensures exists k :: 0 <= k < |names| && EndsWith(names[k], CountSuffix) && BaseName(names[k]) == x
      {
        var k :| 0 <= k < |names[1..]| && EndsWith(names[1..][k], CountSuffix) && BaseName(names[1..][k]) == x;
        assert names[k + 1] == names[1..][k];
      }
    }
  }

  /** `count_file.name.replace(".count.txt", "")`. */
  function BaseName(name: string): string {
    ReplaceAll(name, CountSuffix, "")
  }

  /** The report of a base name that does not contain `.count.txt` gives that base name back. */
  lemma BaseNameOfCount(base: string)
    requires !Contains(base, CountSuffix)
    ensures BaseName(CountFile(base)) == base
  {
    CountSuffixNoBorder();
    ReplaceTail(base, CountSuffix, "");
  }

  lemma CountSuffixNoBorder()
    ensures NoBorder(CountSuffix)
  {
    var p := CountSuffix;
    forall m | 0 < m < |p| ensures p[m..] != p[..|p| - m] {
      if m == 6 {
        assert p[m..][1] != p[..|p| - m][1];
      } else {
        assert p[m..][0] != p[..|p| - m][0];
      }
    }
  }

  /** A report named with the suffix twice loses both: its file set is looked up under a shorter name. */
  lemma DoubleSuffixBaseName()
    ensures BaseName("a.count.txt.count.txt") == "a"
    ensures CountFile(BaseName("a.count.txt.count.txt")) != "a.count.txt.count.txt"
  {
    assert "a.count.txt.count.txt" == "a" + CountSuffix + CountSuffix;
    ReplaceTwice('a', CountSuffix);
    assert |CountFile("a")| < |"a.count.txt.count.txt"|;
  }

  /** Both copies of a pattern after a character that does not start it are removed. */
  lemma ReplaceTwice(c: char, p: string)
    requires |p| > 0 && p[0] != c
    ensures ReplaceAll([c] + p + p, p, "") == [c]
  {
    var s := [c] + p + p;
    assert p[|p|..] == "";
    assert ReplaceAll(p, p, "") == "";
    assert (p + p)[|p|..] == p;
    assert ReplaceAll(p + p, p, "") == "";
    assert s[..|p|][0] != p[0];
    assert s[1..] == p + p;
  }
}
