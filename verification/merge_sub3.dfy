/**
 * The 20-word packer of merge_Sub3.py.
 *
 * Cues are read from blocks separated by `"\n\n"`, then packed left to right
 * into groups: a cue of 20 words or more stands alone, smaller cues collect
 * while the group stays within 20 words, and a cue that joins within the
 * budget and ends in `. , ? !` closes its group at once.  Each group becomes
 * one cue (first start, last end, texts joined by spaces) and the result is
 * written renumbered from 1, every cue followed by an empty line.
 */
module WordPacker {
  import opened Wrappers
  import opened Text
  import opened Decimal
  import opened Blocks
  import opened Timestamp
  import opened Srt

  /** A cue as `parse_srt` reads it: its number, its timing line and its text lines joined by newlines. */
  datatype Cue = Cue(number: int, timestamp: string, text: string)

  /** The word budget of a group. */
  const Cap: nat := 20

  /** The separator of the two times on a timing line. */
  const Arrow: string := " --> "

  // ---------------------------------------------------------------------------
  // Reading
  // ---------------------------------------------------------------------------

  /** One block: at least three lines, the first an integer; any other block is skipped. */
  function ReadCue(block: string): (r: Option<Cue>)
    ensures r.Some? ==> !HasChar(r.value.timestamp, '\n')
  {
    var lines := Split(Strip(block), '\n');
    if |lines| < 3 then None
    else
      match ParseInt(lines[0])
      case None => None
      case Some(n) => Some(Cue(n, lines[1], Join(lines[2..], "\n")))
  }

  /** The cues of the blocks that read, in order. */
  function ReadAll(blocks: seq<string>, read: string -> Option<Cue>): (r: seq<Cue>)
    ensures |r| <= |blocks|
    decreases |blocks|
  {
    if |blocks| == 0 then []
    else
      var rest := ReadAll(blocks[1..], read);
      match read(blocks[0])
      case None => rest
      case Some(c) => [c] + rest
  }

  /** `parse_srt`: the stripped content split on `"\n\n"`, every block read. */
  function ParseSrt(content: string): (r: seq<Cue>)
    ensures |r| <= |SplitDoubleNewline(Strip(content))|
  {
    ReadAll(SplitDoubleNewline(Strip(content)), ReadCue)
  }

  // ---------------------------------------------------------------------------
  // Word counts and punctuation
  // ---------------------------------------------------------------------------

  /** `ends_with_punctuation`: the stripped text ends in `. , ? !`. */
  predicate EndsWithPunct(text: string) {
    var t := Strip(text);
    |t| > 0 && IsBreakMark(t[|t| - 1])
  }

  /** `count_words` of a cue's text. */
  function CueWords(c: Cue): nat {
    CountWords(c.text)
  }

  /** `ends_with_punctuation` of a cue's text. */
  predicate CuePunct(c: Cue) {
    EndsWithPunct(c.text)
  }

  /** The word counts of a run of cues, added up. */
  function Total(cs: seq<Cue>, wc: Cue -> nat): nat
    decreases |cs|
  {
    if |cs| == 0 then 0 else Total(cs[..|cs| - 1], wc) + wc(cs[|cs| - 1])
  }

  lemma {:induction false} TotalSnoc(cs: seq<Cue>, c: Cue, wc: Cue -> nat)
    ensures Total(cs + [c], wc) == Total(cs, wc) + wc(c)
  {
    assert (cs + [c])[..|cs|] == cs;
  }

  lemma {:induction false} TotalSingle(c: Cue, wc: Cue -> nat)
    ensures Total([c], wc) == wc(c)
  {
    assert [c][..0] == [];
  }

  lemma {:induction false} TotalAppend(a: seq<Cue>, b: seq<Cue>, wc: Cue -> nat)
    ensures Total(a + b, wc) == Total(a, wc) + Total(b, wc)
    decreases |b|
  {
    if |b| == 0 {
      assert a + b == a;
    } else {
      var b' := b[..|b| - 1];
      assert a + b == (a + b') + [b[|b| - 1]];
      assert b == b' + [b[|b| - 1]];
      TotalSnoc(a + b', b[|b| - 1], wc);
      TotalSnoc(b', b[|b| - 1], wc);
      TotalAppend(a, b', wc);
    }
  }

  /**
   * The punctuation test, stated without stripping: some mark in the text is
   * followed by nothing but whitespace.
   */
  lemma {:induction false} EndsWithPunctIff(text: string)
    ensures EndsWithPunct(text)
        <==> exists i :: 0 <= i < |text| && IsBreakMark(text[i]) && AllSpace(text[i + 1..])
  {
    var l := LStrip(text);
    var t := RStrip(l);
    var d := |text| - |l|;
    if EndsWithPunct(text) {
      var i := d + |t| - 1;
      assert text[i] == l[|t| - 1] == t[|t| - 1];
      assert text[i + 1..] == l[|t|..];
    }
    if exists i :: 0 <= i < |text| && IsBreakMark(text[i]) && AllSpace(text[i + 1..]) {
      var i :| 0 <= i < |text| && IsBreakMark(text[i]) && AllSpace(text[i + 1..]);
      MarkIsLastKept(text, i);
    }
  }

  /** A mark followed only by whitespace is the last character `strip` keeps. */
  lemma {:induction false} MarkIsLastKept(text: string, i: nat)
    requires i < |text| && IsBreakMark(text[i]) && AllSpace(text[i + 1..])
    ensures EndsWithPunct(text)
  {
    StripLastAt(text, i);
  }

  /** The last character `strip` keeps is the last non-space one. */
  lemma {:induction false} StripLastAt(text: string, i: nat)
    requires i < |text| && !IsSpace(text[i]) && AllSpace(text[i + 1..])
    ensures |Strip(text)| > 0 && Strip(text)[|Strip(text)| - 1] == text[i]
  {
    var l := LStrip(text);
    var d := LStripAt(text, i);
    var t := RStrip(l);
    RStripAt(l, i - d);
    assert Strip(text) == t;
  }

  /** Left stripping drops `d` characters, all before a non-space character at `i`. */
  lemma {:induction false} LStripAt(text: string, i: nat) returns (d: nat)
    requires i < |text| && !IsSpace(text[i]) && AllSpace(text[i + 1..])
    ensures d <= i && |LStrip(text)| == |text| - d
    ensures LStrip(text)[i - d] == text[i] && AllSpace(LStrip(text)[i - d + 1..])
  {
    var l := LStrip(text);
    d := |text| - |l|;
    SpaceBefore(text, d, i);
    SuffixShift(text, l, d, i);
  }

  lemma {:induction false} SuffixShift(text: string, l: string, d: nat, i: nat)
    requires d <= i < |text| && l == text[d..]
    ensures l[i - d] == text[i] && l[i - d + 1..] == text[i + 1..]
  {
  }

  /** A non-space character lies after a whitespace prefix. */
  lemma {:induction false} SpaceBefore(s: string, m: nat, k: nat)
    requires m <= |s| && k < |s| && AllSpace(s[..m]) && !IsSpace(s[k])
    ensures m <= k
  {
  }

  /** A non-space character lies before a whitespace suffix. */
  lemma {:induction false} SpaceAfter(s: string, m: nat, k: nat)
    requires m <= |s| && k < |s| && AllSpace(s[m..]) && !IsSpace(s[k])
    ensures k < m
  {
  }

  /** `rstrip` ends at the last non-space character. */
  lemma {:induction false} RStripAt(l: string, j: nat)
    requires j < |l| && !IsSpace(l[j]) && AllSpace(l[j + 1..])
    ensures |RStrip(l)| == j + 1 && RStrip(l)[j] == l[j]
  {
    var t := RStrip(l);
    SpaceAfter(l, |t|, j);
    assert t[|t| - 1] == l[|t| - 1];
    SpaceAfter(l, j + 1, |t| - 1);
  }

  // ---------------------------------------------------------------------------
  // Packing
  // ---------------------------------------------------------------------------

  /** The pending group is appended to the finished ones, unless it is empty. */
  function Flush(done: seq<seq<Cue>>, group: seq<Cue>): (r: seq<seq<Cue>>)
    ensures |group| > 0 ==> r == done + [group]
    ensures |group| == 0 ==> r == done
  {
    if |group| > 0 then done + [group] else done
  }

  /**
   * The loop of `merge_subtitles`: `done` are the groups emitted so far,
   * `group` the pending one and `count` its word total; `wc` counts a cue's
   * words and `ends` tells whether it ends in punctuation.
   */
  function Pack(cs: seq<Cue>, wc: Cue -> nat, ends: Cue -> bool,
                done: seq<seq<Cue>>, group: seq<Cue>, count: nat): (r: seq<seq<Cue>>)
    ensures |r| >= |done| && forall k :: 0 <= k < |done| ==> r[k] == done[k]
    decreases |cs|
  {
    if |cs| == 0 then Flush(done, group)
    else
      var s := cs[0];
      var w := wc(s);
      if w >= Cap then Pack(cs[1..], wc, ends, Flush(done, group) + [[s]], [], 0)
      else if count + w <= Cap then
        if ends(s) then Pack(cs[1..], wc, ends, done + [group + [s]], [], 0)
        else Pack(cs[1..], wc, ends, done, group + [s], count + w)
      else Pack(cs[1..], wc, ends, Flush(done, group), [s], w)
  }

  /** The groups `merge_subtitles` forms. */
  function Groups(cs: seq<Cue>): seq<seq<Cue>> {
    Pack(cs, CueWords, CuePunct, [], [], 0)
  }

  /** The groups laid end to end. */
  function Flatten(gs: seq<seq<Cue>>): seq<Cue>
    decreases |gs|
  {
    if |gs| == 0 then [] else Flatten(gs[..|gs| - 1]) + gs[|gs| - 1]
  }

  lemma {:induction false} FlattenSnoc(gs: seq<seq<Cue>>, g: seq<Cue>)
    ensures Flatten(gs + [g]) == Flatten(gs) + g
  {
    assert (gs + [g])[..|gs|] == gs;
  }

  predicate NonEmpty(gs: seq<seq<Cue>>) {
    forall k :: 0 <= k < |gs| ==> |gs[k]| > 0
  }

  lemma {:induction false} NonEmptySnoc(gs: seq<seq<Cue>>, g: seq<Cue>)
    requires NonEmpty(gs) && |g| > 0
    ensures NonEmpty(gs + [g])
  {
  }

  lemma {:induction false} PackFlatten(cs: seq<Cue>, wc: Cue -> nat, ends: Cue -> bool,
                                       done: seq<seq<Cue>>, group: seq<Cue>, count: nat)
    ensures Flatten(Pack(cs, wc, ends, done, group, count)) == Flatten(done) + group + cs
    decreases |cs|
  {
    if |cs| == 0 {
      FlushFlatten(done, group);
    } else {
      var s := cs[0];
      var w := wc(s);
      var rest := cs[1..];
      if w >= Cap {
        var d := Flush(done, group);
        FlushFlatten(done, group);
        FlattenSnoc(d, [s]);
        PackFlatten(rest, wc, ends, d + [[s]], [], 0);
        ShiftOne(Flatten(done) + group, s, rest, cs);
      } else if count + w <= Cap && ends(s) {
        FlattenSnoc(done, group + [s]);
        PackFlatten(rest, wc, ends, done + [group + [s]], [], 0);
        ShiftOne(Flatten(done) + group, s, rest, cs);
      } else if count + w <= Cap {
        PackFlatten(rest, wc, ends, done, group + [s], count + w);
        ShiftOne(Flatten(done) + group, s, rest, cs);
      } else {
        FlushFlatten(done, group);
        PackFlatten(rest, wc, ends, Flush(done, group), [s], w);
        ShiftOne(Flatten(done) + group, s, rest, cs);
      }
    }
  }

  lemma {:induction false} FlushFlatten(done: seq<seq<Cue>>, group: seq<Cue>)
    ensures Flatten(Flush(done, group)) == Flatten(done) + group
  {
    if |group| > 0 {
      FlattenSnoc(done, group);
    } else {
      assert Flatten(done) + group == Flatten(done);
    }
  }

  lemma {:induction false} ShiftOne(a: seq<Cue>, s: Cue, rest: seq<Cue>, cs: seq<Cue>)
    requires |cs| > 0 && s == cs[0] && rest == cs[1..]
    ensures a + [s] + rest == a + cs
    ensures (a + [s]) + [] + rest == a + cs
  {
    assert cs == [s] + rest;
  }

  lemma {:induction false} PackNonEmpty(cs: seq<Cue>, wc: Cue -> nat, ends: Cue -> bool,
                                        done: seq<seq<Cue>>, group: seq<Cue>, count: nat)
    requires NonEmpty(done)
    ensures NonEmpty(Pack(cs, wc, ends, done, group, count))
    decreases |cs|
  {
    if |group| > 0 {
      NonEmptySnoc(done, group);
    }
    if |cs| > 0 {
      var s := cs[0];
      var w := wc(s);
      var d := Flush(done, group);
      if w >= Cap {
        NonEmptySnoc(d, [s]);
        PackNonEmpty(cs[1..], wc, ends, d + [[s]], [], 0);
      } else if count + w <= Cap && ends(s) {
        NonEmptySnoc(done, group + [s]);
        PackNonEmpty(cs[1..], wc, ends, done + [group + [s]], [], 0);
      } else if count + w <= Cap {
        PackNonEmpty(cs[1..], wc, ends, done, group + [s], count + w);
      } else {
        PackNonEmpty(cs[1..], wc, ends, d, [s], w);
      }
    }
  }

  /** The groups are an order-preserving partition of the cues into non-empty runs. */
  lemma {:induction false} GroupsPartition(cs: seq<Cue>)
    ensures Flatten(Groups(cs)) == cs
    ensures NonEmpty(Groups(cs))
  {
    PackFlatten(cs, CueWords, CuePunct, [], [], 0);
    PackNonEmpty(cs, CueWords, CuePunct, [], [], 0);
  }
  // ---------------------------------------------------------------------------
  // The word budget
  // ---------------------------------------------------------------------------

  predicate AllUnder(g: seq<Cue>, wc: Cue -> nat) {
    forall k :: 0 <= k < |g| ==> wc(g[k]) < Cap
  }

  /** A group is one cue at or over the budget, or cues under it adding up to at most the budget. */
  predicate Fits(g: seq<Cue>, wc: Cue -> nat) {
    |g| > 0 && ((|g| == 1 && wc(g[0]) >= Cap) || (AllUnder(g, wc) && Total(g, wc) <= Cap))
  }

  predicate AllFit(gs: seq<seq<Cue>>, wc: Cue -> nat) {
    forall k :: 0 <= k < |gs| ==> Fits(gs[k], wc)
  }

  lemma {:induction false} AllFitSnoc(gs: seq<seq<Cue>>, g: seq<Cue>, wc: Cue -> nat)
    requires AllFit(gs, wc) && Fits(g, wc)
    ensures AllFit(gs + [g], wc)
  {
  }

  lemma {:induction false} UnderSnoc(g: seq<Cue>, s: Cue, wc: Cue -> nat)
    requires AllUnder(g, wc) && wc(s) < Cap
    ensures AllUnder(g + [s], wc)
    ensures Total(g + [s], wc) == Total(g, wc) + wc(s)
  {
    TotalSnoc(g, s, wc);
  }

  /** The pending group is made of cues under the budget and `count` is its word total. */
  predicate Pending(group: seq<Cue>, count: nat, wc: Cue -> nat) {
    count == Total(group, wc) && count <= Cap && AllUnder(group, wc)
  }

  lemma {:induction false} PackFits(cs: seq<Cue>, wc: Cue -> nat, ends: Cue -> bool,
                                    done: seq<seq<Cue>>, group: seq<Cue>, count: nat)
    requires AllFit(done, wc) && Pending(group, count, wc)
    ensures AllFit(Pack(cs, wc, ends, done, group, count), wc)
    decreases |cs|
  {
    var d := Flush(done, group);
    if |group| > 0 {
      AllFitSnoc(done, group, wc);
    }
    if |cs| > 0 {
      var s := cs[0];
      var w := wc(s);
      if w >= Cap {
        AllFitSnoc(d, [s], wc);
        PackFits(cs[1..], wc, ends, d + [[s]], [], 0);
      } else if count + w <= Cap {
        UnderSnoc(group, s, wc);
        if ends(s) {
          AllFitSnoc(done, group + [s], wc);
          PackFits(cs[1..], wc, ends, done + [group + [s]], [], 0);
        } else {
          PackFits(cs[1..], wc, ends, done, group + [s], count + w);
        }
      } else {
        TotalSingle(s, wc);
        PackFits(cs[1..], wc, ends, d, [s], w);
      }
    }
  }

  /**
   * Every group is either a single cue of 20 words or more, or cues of fewer
   * than 20 words each that together have at most 20; so a cue of 20 words or
   * more is always alone in its group.
   */
  lemma {:induction false} GroupsFit(cs: seq<Cue>)
    ensures AllFit(Groups(cs), CueWords)
    ensures forall k, j :: 0 <= k < |Groups(cs)| && 0 <= j < |Groups(cs)[k]| && CueWords(Groups(cs)[k][j]) >= Cap
              ==> |Groups(cs)[k]| == 1
  {
    PackFits(cs, CueWords, CuePunct, [], [], 0);
  }

  // ---------------------------------------------------------------------------
  // Punctuation closes a group only on the add path
  // ---------------------------------------------------------------------------

  /** No cue strictly inside a group ends in punctuation. */
  predicate InnerPlain(g: seq<Cue>, ends: Cue -> bool) {
    forall k :: 0 < k < |g| - 1 ==> !ends(g[k])
  }

  predicate AllInnerPlain(gs: seq<seq<Cue>>, ends: Cue -> bool) {
    forall k :: 0 <= k < |gs| ==> InnerPlain(gs[k], ends)
  }

  /** Every cue of the pending group after its first ends without punctuation. */
  predicate PlainAfterFirst(g: seq<Cue>, ends: Cue -> bool) {
    forall k :: 0 < k < |g| ==> !ends(g[k])
  }

  lemma {:induction false} PlainInner(g: seq<Cue>, ends: Cue -> bool)
    requires PlainAfterFirst(g, ends)
    ensures InnerPlain(g, ends)
  {
  }

  lemma {:induction false} PlainSnoc(g: seq<Cue>, s: Cue, ends: Cue -> bool)
    requires PlainAfterFirst(g, ends)
    ensures InnerPlain(g + [s], ends)
    ensures !ends(s) ==> PlainAfterFirst(g + [s], ends)
  {
  }

  lemma {:induction false} AllInnerPlainSnoc(gs: seq<seq<Cue>>, g: seq<Cue>, ends: Cue -> bool)
    requires AllInnerPlain(gs, ends) && InnerPlain(g, ends)
    ensures AllInnerPlain(gs + [g], ends)
  {
  }

  lemma {:induction false} PackInnerPlain(cs: seq<Cue>, wc: Cue -> nat, ends: Cue -> bool,
                                          done: seq<seq<Cue>>, group: seq<Cue>, count: nat)
    requires AllInnerPlain(done, ends) && PlainAfterFirst(group, ends)
    ensures AllInnerPlain(Pack(cs, wc, ends, done, group, count), ends)
    decreases |cs|
  {
    var d := Flush(done, group);
    PlainInner(group, ends);
    if |group| > 0 {
      AllInnerPlainSnoc(done, group, ends);
    }
    if |cs| > 0 {
      var s := cs[0];
      var w := wc(s);
      PlainSnoc(group, s, ends);
      if w >= Cap {
        AllInnerPlainSnoc(d, [s], ends);
        PackInnerPlain(cs[1..], wc, ends, d + [[s]], [], 0);
      } else if count + w <= Cap && ends(s) {
        AllInnerPlainSnoc(done, group + [s], ends);
        PackInnerPlain(cs[1..], wc, ends, done + [group + [s]], [], 0);
      } else if count + w <= Cap {
        PackInnerPlain(cs[1..], wc, ends, done, group + [s], count + w);
      } else {
        PackInnerPlain(cs[1..], wc, ends, d, [s], w);
      }
    }
  }

  /** A cue strictly inside a merged group never ends in `. , ? !`. */
  lemma {:induction false} GroupsInnerPlain(cs: seq<Cue>)
    ensures forall k, j :: 0 <= k < |Groups(cs)| && 0 < j < |Groups(cs)[k]| - 1 ==> !CuePunct(Groups(cs)[k][j])
  {
    PackInnerPlain(cs, CueWords, CuePunct, [], [], 0);
    assert AllInnerPlain(Groups(cs), CuePunct);
  }

  // ---------------------------------------------------------------------------
  // What is pending after a group
  // ---------------------------------------------------------------------------

  /**
   * Nothing is pending once the last group of `gs` is emitted: that group is
   * a cue over the budget, or its last cue ends in punctuation and joined on
   * the add path.  A lone cue that began its group because it overflowed the
   * group before did not join on the add path, so its punctuation leaves the
   * group open.
   */
  predicate Shut(gs: seq<seq<Cue>>, wc: Cue -> nat, ends: Cue -> bool)
    decreases |gs|
  {
    |gs| > 0 && |gs[|gs| - 1]| > 0 &&
    var g := gs[|gs| - 1];
    (wc(g[0]) >= Cap || (ends(g[|g| - 1]) && (|g| > 1 || |gs| == 1 || Shut(gs[..|gs| - 1], wc, ends))))
  }

  /**
   * A group of several cues whose first cue ends in punctuation was started
   * by an overflow: a group was pending after the previous one, and the first
   * cue did not fit in it.
   */
  predicate OverflowStarts(gs: seq<seq<Cue>>, wc: Cue -> nat, ends: Cue -> bool) {
    forall k :: 0 <= k < |gs| && |gs[k]| > 1 && ends(gs[k][0]) ==>
      k > 0 && !Shut(gs[..k], wc, ends) && Total(gs[k - 1], wc) + wc(gs[k][0]) > Cap
  }

  /** The start condition of a group `g` about to follow the groups `gs`. */
  predicate StartedByOverflow(gs: seq<seq<Cue>>, g: seq<Cue>, wc: Cue -> nat, ends: Cue -> bool) {
    |g| > 0 && ends(g[0]) ==> |gs| > 0 && !Shut(gs, wc, ends) && Total(gs[|gs| - 1], wc) + wc(g[0]) > Cap
  }

  lemma {:induction false} OverflowStartsSnoc(gs: seq<seq<Cue>>, g: seq<Cue>, wc: Cue -> nat, ends: Cue -> bool)
    requires OverflowStarts(gs, wc, ends)
    requires |g| > 1 ==> StartedByOverflow(gs, g, wc, ends)
    ensures OverflowStarts(gs + [g], wc, ends)
  {
    var r := gs + [g];
    forall k | 0 <= k < |r| && |r[k]| > 1 && ends(r[k][0])
      ensures k > 0 && !Shut(r[..k], wc, ends) && Total(r[k - 1], wc) + wc(r[k][0]) > Cap
    {
      assert r[..k] == gs[..k];
      if k < |gs| {
        assert r[k] == gs[k];
        if k > 0 { assert r[k - 1] == gs[k - 1]; }
      } else {
        assert r[k] == g && r[k - 1] == gs[|gs| - 1] && gs[..k] == gs;
      }
    }
  }

  /** A pending group is never shut when it is flushed: its last cue is plain unless it opened by overflow. */
  lemma {:induction false} PendingOpen(done: seq<seq<Cue>>, group: seq<Cue>, wc: Cue -> nat, ends: Cue -> bool)
    requires |group| > 0 && AllUnder(group, wc) && PlainAfterFirst(group, ends)
    requires StartedByOverflow(done, group, wc, ends)
    ensures !Shut(done + [group], wc, ends)
  {
    var r := done + [group];
    assert r[|r| - 1] == group && r[..|r| - 1] == done;
    assert wc(group[0]) < Cap;
  }

  lemma {:induction false} PackOverflowStarts(cs: seq<Cue>, wc: Cue -> nat, ends: Cue -> bool,
                                              done: seq<seq<Cue>>, group: seq<Cue>, count: nat)
    requires OverflowStarts(done, wc, ends) && StartedByOverflow(done, group, wc, ends)
    requires Pending(group, count, wc) && PlainAfterFirst(group, ends)
    ensures OverflowStarts(Pack(cs, wc, ends, done, group, count), wc, ends)
    decreases |cs|, 1
  {
    if |cs| == 0 {
      if |group| > 0 {
        OverflowStartsSnoc(done, group, wc, ends);
      }
    } else if wc(cs[0]) >= Cap {
      StartsBig(cs, wc, ends, done, group, count);
    } else if count + wc(cs[0]) <= Cap {
      StartsAdd(cs, wc, ends, done, group, count);
    } else {
      StartsOverflow(cs, wc, ends, done, group, count);
    }
  }

  lemma {:induction false} StartsBig(cs: seq<Cue>, wc: Cue -> nat, ends: Cue -> bool,
                                     done: seq<seq<Cue>>, group: seq<Cue>, count: nat)
    requires |cs| > 0 && wc(cs[0]) >= Cap
    requires OverflowStarts(done, wc, ends) && StartedByOverflow(done, group, wc, ends)
    ensures OverflowStarts(Pack(cs, wc, ends, done, group, count), wc, ends)
    decreases |cs|, 0
  {
    var s := cs[0];
    var d := Flush(done, group);
    if |group| > 0 {
      OverflowStartsSnoc(done, group, wc, ends);
    }
    OverflowStartsSnoc(d, [s], wc, ends);
    PackOverflowStarts(cs[1..], wc, ends, d + [[s]], [], 0);
  }

  lemma {:induction false} StartsAdd(cs: seq<Cue>, wc: Cue -> nat, ends: Cue -> bool,
                                     done: seq<seq<Cue>>, group: seq<Cue>, count: nat)
    requires |cs| > 0 && wc(cs[0]) < Cap && count + wc(cs[0]) <= Cap
    requires OverflowStarts(done, wc, ends) && StartedByOverflow(done, group, wc, ends)
    requires Pending(group, count, wc) && PlainAfterFirst(group, ends)
    ensures OverflowStarts(Pack(cs, wc, ends, done, group, count), wc, ends)
    decreases |cs|, 0
  {
    var s := cs[0];
    UnderSnoc(group, s, wc);
    PlainSnoc(group, s, ends);
    assert |group| > 0 ==> (group + [s])[0] == group[0];
    if ends(s) {
      StartsShut(cs[1..], wc, ends, done, group + [s]);
    } else {
      PackOverflowStarts(cs[1..], wc, ends, done, group + [s], count + wc(s));
    }
  }

  /** The add path when the cue ends in punctuation: the grown group is emitted. */
  lemma {:induction false} StartsShut(rest: seq<Cue>, wc: Cue -> nat, ends: Cue -> bool,
                                      done: seq<seq<Cue>>, g: seq<Cue>)
    requires OverflowStarts(done, wc, ends) && (|g| > 1 ==> StartedByOverflow(done, g, wc, ends))
    ensures OverflowStarts(Pack(rest, wc, ends, done + [g], [], 0), wc, ends)
    decreases |rest|, 2
  {
    OverflowStartsSnoc(done, g, wc, ends);
    PackOverflowStarts(rest, wc, ends, done + [g], [], 0);
  }

  lemma {:induction false} StartsOverflow(cs: seq<Cue>, wc: Cue -> nat, ends: Cue -> bool,
                                          done: seq<seq<Cue>>, group: seq<Cue>, count: nat)
    requires |cs| > 0 && wc(cs[0]) < Cap && count + wc(cs[0]) > Cap
    requires OverflowStarts(done, wc, ends) && StartedByOverflow(done, group, wc, ends)
    requires Pending(group, count, wc) && PlainAfterFirst(group, ends)
    ensures OverflowStarts(Pack(cs, wc, ends, done, group, count), wc, ends)
    decreases |cs|, 0
  {
    var s := cs[0];
    assert |group| > 0;
    OverflowStartsSnoc(done, group, wc, ends);
    PendingOpen(done, group, wc, ends);
    var d := done + [group];
    assert d[|d| - 1] == group;
    TotalSingle(s, wc);
    PackOverflowStarts(cs[1..], wc, ends, d, [s], wc(s));
  }

  /**
   * Punctuation flushes only on the add path: a group of several cues that
   * begins with a punctuated cue follows a group that was still pending and
   * that this cue would have pushed over 20 words.
   */
  lemma {:induction false} GroupsOverflowStarts(cs: seq<Cue>)
    ensures OverflowStarts(Groups(cs), CueWords, CuePunct)
  {
    PackOverflowStarts(cs, CueWords, CuePunct, [], [], 0);
  }

  // ---------------------------------------------------------------------------
  // Every cut has a reason
  // ---------------------------------------------------------------------------

  /**
   * Why the groups `gs` end where a group `h` begins: nothing is pending
   * after them, `h` begins with a cue over the budget, or the first cue of
   * `h` would have pushed the last of `gs` over the budget.
   */
  predicate Cut(gs: seq<seq<Cue>>, h: seq<Cue>, wc: Cue -> nat, ends: Cue -> bool) {
    |gs| > 0 && |h| > 0
    && (Shut(gs, wc, ends) || wc(h[0]) >= Cap || Total(gs[|gs| - 1], wc) + wc(h[0]) > Cap)
  }

  predicate Cuts(gs: seq<seq<Cue>>, wc: Cue -> nat, ends: Cue -> bool) {
    forall k :: 0 < k < |gs| ==> Cut(gs[..k], gs[k], wc, ends)
  }

  /** Nothing is pending after the finished groups, or they are cut from the pending one. */
  predicate Ready(done: seq<seq<Cue>>, group: seq<Cue>, wc: Cue -> nat, ends: Cue -> bool) {
    |done| > 0 ==> (if |group| == 0 then Shut(done, wc, ends) else Cut(done, group, wc, ends))
  }

  lemma {:induction false} CutsSnoc(gs: seq<seq<Cue>>, g: seq<Cue>, wc: Cue -> nat, ends: Cue -> bool)
    requires Cuts(gs, wc, ends) && |g| > 0
    requires |gs| > 0 ==> Cut(gs, g, wc, ends)
    ensures Cuts(gs + [g], wc, ends)
  {
    var r := gs + [g];
    forall k | 0 < k < |r|
      ensures Cut(r[..k], r[k], wc, ends)
    {
      assert r[..k] == gs[..k];
      if k < |gs| { assert r[k] == gs[k]; } else { assert r[k] == g && gs[..k] == gs; }
    }
  }

  /** Before a group that is about to be extended, the readiness does not change. */
  lemma {:induction false} ReadyExtend(done: seq<seq<Cue>>, group: seq<Cue>, s: Cue, wc: Cue -> nat, ends: Cue -> bool)
    requires Ready(done, group, wc, ends)
    ensures |done| > 0 ==> Cut(done, group + [s], wc, ends)
  {
    if |group| > 0 {
      assert (group + [s])[0] == group[0];
    }
  }

  /** A group that takes a punctuated cue on the add path leaves nothing pending. */
  lemma {:induction false} ShutOnPunct(done: seq<seq<Cue>>, group: seq<Cue>, s: Cue, wc: Cue -> nat, ends: Cue -> bool)
    requires Ready(done, group, wc, ends) && ends(s)
    ensures Shut(done + [group + [s]], wc, ends)
  {
    var r := done + [group + [s]];
    assert r[|r| - 1] == group + [s] && r[..|r| - 1] == done;
  }

  /** A cue over the budget leaves nothing pending. */
  lemma {:induction false} ShutOnBig(d: seq<seq<Cue>>, s: Cue, wc: Cue -> nat, ends: Cue -> bool)
    requires wc(s) >= Cap
    ensures Shut(d + [[s]], wc, ends)
  {
    assert (d + [[s]])[|d|] == [s];
  }

  lemma {:induction false} PackCuts(cs: seq<Cue>, wc: Cue -> nat, ends: Cue -> bool,
                                    done: seq<seq<Cue>>, group: seq<Cue>, count: nat)
    requires Cuts(done, wc, ends) && Ready(done, group, wc, ends)
    requires count == Total(group, wc)
    ensures Cuts(Pack(cs, wc, ends, done, group, count), wc, ends)
    decreases |cs|, 1
  {
    if |cs| == 0 {
      if |group| > 0 {
        CutsSnoc(done, group, wc, ends);
      }
    } else if wc(cs[0]) >= Cap {
      CutsBig(cs, wc, ends, done, group, count);
    } else if count + wc(cs[0]) <= Cap {
      CutsAdd(cs, wc, ends, done, group, count);
    } else {
      CutsOverflow(cs, wc, ends, done, group, count);
    }
  }

  /** Only a non-empty group has words. */
  lemma {:induction false} PositiveTotal(g: seq<Cue>, wc: Cue -> nat)
    requires Total(g, wc) > 0
    ensures |g| > 0
  {
  }

  /** After an overflow the flushed group is cut from the cue that starts the next one. */
  lemma {:induction false} OverflowReady(done: seq<seq<Cue>>, group: seq<Cue>, s: Cue, d: seq<seq<Cue>>,
                                         wc: Cue -> nat, ends: Cue -> bool)
    requires |group| > 0 && Total(group, wc) + wc(s) > Cap && d == done + [group]
    ensures Ready(d, [s], wc, ends)
  {
    assert d[|d| - 1] == group;
    assert Cut(d, [s], wc, ends);
  }

  lemma {:induction false} CutsBig(cs: seq<Cue>, wc: Cue -> nat, ends: Cue -> bool,
                                   done: seq<seq<Cue>>, group: seq<Cue>, count: nat)
    requires |cs| > 0 && wc(cs[0]) >= Cap
    requires Cuts(done, wc, ends) && Ready(done, group, wc, ends)
    ensures Cuts(Pack(cs, wc, ends, done, group, count), wc, ends)
    decreases |cs|, 0
  {
    var s := cs[0];
    var d := Flush(done, group);
    if |group| > 0 {
      CutsSnoc(done, group, wc, ends);
    }
    assert |d| > 0 ==> Cut(d, [s], wc, ends);
    CutsSnoc(d, [s], wc, ends);
    ShutOnBig(d, s, wc, ends);
    PackCuts(cs[1..], wc, ends, d + [[s]], [], 0);
  }

  lemma {:induction false} CutsAdd(cs: seq<Cue>, wc: Cue -> nat, ends: Cue -> bool,
                                   done: seq<seq<Cue>>, group: seq<Cue>, count: nat)
    requires |cs| > 0 && wc(cs[0]) < Cap && count + wc(cs[0]) <= Cap
    requires Cuts(done, wc, ends) && Ready(done, group, wc, ends)
    requires count == Total(group, wc)
    ensures Cuts(Pack(cs, wc, ends, done, group, count), wc, ends)
    decreases |cs|, 0
  {
    var s := cs[0];
    TotalSnoc(group, s, wc);
    ReadyExtend(done, group, s, wc, ends);
    if ends(s) {
      CutsSnoc(done, group + [s], wc, ends);
      ShutOnPunct(done, group, s, wc, ends);
      PackCuts(cs[1..], wc, ends, done + [group + [s]], [], 0);
    } else {
      PackCuts(cs[1..], wc, ends, done, group + [s], count + wc(s));
    }
  }

  lemma {:induction false} CutsOverflow(cs: seq<Cue>, wc: Cue -> nat, ends: Cue -> bool,
                                        done: seq<seq<Cue>>, group: seq<Cue>, count: nat)
    requires |cs| > 0 && wc(cs[0]) < Cap && count + wc(cs[0]) > Cap
    requires Cuts(done, wc, ends) && Ready(done, group, wc, ends)
    requires count == Total(group, wc)
    ensures Cuts(Pack(cs, wc, ends, done, group, count), wc, ends)
    decreases |cs|, 0
  {
    var s := cs[0];
    PositiveTotal(group, wc);
    CutsSnoc(done, group, wc, ends);
    var d := done + [group];
    OverflowReady(done, group, s, d, wc, ends);
    TotalSingle(s, wc);
    PackCuts(cs[1..], wc, ends, d, [s], wc(s));
  }

  /**
   * No group is cut without a reason: between consecutive groups, nothing
   * was pending after the first (it is a cue of 20 words or more, or it took
   * a punctuated cue on the add path), the second starts with a cue of 20
   * words or more, or the second's first cue would have pushed the first
   * over 20 words.
   */
  lemma {:induction false} GroupsCuts(cs: seq<Cue>)
    ensures Cuts(Groups(cs), CueWords, CuePunct)
  {
    PackCuts(cs, CueWords, CuePunct, [], [], 0);
  }

  // ---------------------------------------------------------------------------
  // The properties above determine the groups
  // ---------------------------------------------------------------------------

  /** A grouping of `cs` with every property the packer's groups have. */
  predicate Packed(cs: seq<Cue>, gs: seq<seq<Cue>>, wc: Cue -> nat, ends: Cue -> bool) {
    Flatten(gs) == cs && NonEmpty(gs) && AllFit(gs, wc) && AllInnerPlain(gs, ends)
    && OverflowStarts(gs, wc, ends) && Cuts(gs, wc, ends)
  }

  /** The groups of `merge_subtitles` have all the properties. */
  lemma {:induction false} GroupsPacked(cs: seq<Cue>)
    ensures Packed(cs, Groups(cs), CueWords, CuePunct)
  {
    GroupsPartition(cs);
    PackFits(cs, CueWords, CuePunct, [], [], 0);
    PackInnerPlain(cs, CueWords, CuePunct, [], [], 0);
    GroupsOverflowStarts(cs);
    GroupsCuts(cs);
  }

  /** The first `k` groups cover a prefix of the cues. */
  lemma {:induction false} FlattenPrefix(gs: seq<seq<Cue>>, k: nat)
    requires k <= |gs|
    ensures |Flatten(gs[..k])| <= |Flatten(gs)| && Flatten(gs)[..|Flatten(gs[..k])|] == Flatten(gs[..k])
    decreases |gs| - k
  {
    if k < |gs| {
      FlattenPrefix(gs, k + 1);
      assert gs[..k + 1][..k] == gs[..k];
      var p := Flatten(gs[..k]);
      var q := Flatten(gs[..k + 1]);
      assert q == p + gs[k];
      assert q[..|p|] == p;
    } else {
      assert gs[..k] == gs;
    }
  }

  /** Group `k` is the run of cues that follows the first `k` groups. */
  lemma {:induction false} GroupAt(gs: seq<seq<Cue>>, k: nat) returns (p: nat)
    requires k < |gs|
    ensures p == |Flatten(gs[..k])| && p + |gs[k]| == |Flatten(gs[..k + 1])| <= |Flatten(gs)|
    ensures Flatten(gs)[p..p + |gs[k]|] == gs[k]
  {
    p := |Flatten(gs[..k])|;
    FlattenPrefix(gs, k + 1);
    assert gs[..k + 1][..k] == gs[..k];
    assert Flatten(gs[..k + 1]) == Flatten(gs[..k]) + gs[k];
  }

  /** A group that ends before the cues do is followed by one that starts with the next cue. */
  lemma {:induction false} FollowedBy(gs: seq<seq<Cue>>, k: nat, p: nat)
    requires k < |gs| && p == |Flatten(gs[..k])| && p + |gs[k]| < |Flatten(gs)| && NonEmpty(gs)
    ensures k + 1 < |gs| && gs[k + 1][0] == Flatten(gs)[p + |gs[k]|]
  {
    var p0 := GroupAt(gs, k);
    var q := GroupAt(gs, k + 1);
    assert gs[k + 1][0] == Flatten(gs)[q..q + |gs[k + 1]|][0];
  }

  /** Two runs of the cues from the same place: the shorter is a prefix of the longer. */
  lemma {:induction false} SamePlace(cs: seq<Cue>, p: nat, a: seq<Cue>, b: seq<Cue>)
    requires p + |a| <= |cs| && p + |b| <= |cs| && cs[p..p + |a|] == a && cs[p..p + |b|] == b
    requires |a| < |b|
    ensures b[..|a|] == a && b[|a|] == cs[p + |a|]
  {
  }

  /** A group that is a proper prefix of a group of another valid grouping has no reason to end. */
  lemma {:induction false} Inside(gs: seq<seq<Cue>>, before: seq<seq<Cue>>, a: seq<Cue>, b: seq<Cue>,
                                  wc: Cue -> nat, ends: Cue -> bool)
    requires |gs| > 0 && gs[|gs| - 1] == a && gs[..|gs| - 1] == before
    requires 0 < |a| < |b| && b[..|a|] == a && Fits(b, wc) && InnerPlain(b, ends)
    requires ends(b[0]) ==> |before| > 0 && !Shut(before, wc, ends)
    ensures !Shut(gs, wc, ends) && wc(b[|a|]) < Cap && Total(a, wc) + wc(b[|a|]) <= Cap
  {
    assert a[0] == b[0] && a[|a| - 1] == b[|a| - 1];
    var c := b[..|a| + 1];
    assert c == a + [b[|a|]];
    TotalSnoc(a, b[|a|], wc);
    TotalAppend(c, b[|a| + 1..], wc);
    assert c + b[|a| + 1..] == b;
  }

  /**
   * Group `k` of one valid grouping is no shorter than group `k` of another
   * that agrees on the groups before it: a shorter one would have been cut
   * without a reason.
   */
  lemma {:induction false} NotShorter(cs: seq<Cue>, gs1: seq<seq<Cue>>, gs2: seq<seq<Cue>>, k: nat,
                                      wc: Cue -> nat, ends: Cue -> bool)
    requires Flatten(gs1) == cs && Flatten(gs2) == cs && NonEmpty(gs1) && NonEmpty(gs2)
    requires k < |gs1| && k < |gs2| && gs1[..k] == gs2[..k]
    requires k + 1 < |gs1| ==> Cut(gs1[..k + 1], gs1[k + 1], wc, ends)
    requires Fits(gs2[k], wc) && InnerPlain(gs2[k], ends)
    requires |gs2[k]| > 1 && ends(gs2[k][0]) ==> k > 0 && !Shut(gs2[..k], wc, ends)
    ensures |gs1[k]| >= |gs2[k]|
  {
    var a, b := gs1[k], gs2[k];
    var p := GroupAt(gs1, k);
    var p2 := GroupAt(gs2, k);
    assert gs1[..k + 1][..k] == gs1[..k] && gs1[..k + 1][k] == a;
    if |a| < |b| {
      SamePlace(cs, p, a, b);
      FollowedBy(gs1, k, p);
      Inside(gs1[..k + 1], gs1[..k], a, b, wc, ends);
    }
  }

  /** Two groupings with all the properties are the same from group `k` on when they agree before it. */
  lemma {:induction false} SameFrom(cs: seq<Cue>, gs1: seq<seq<Cue>>, gs2: seq<seq<Cue>>, k: nat,
                                    wc: Cue -> nat, ends: Cue -> bool)
    requires Packed(cs, gs1, wc, ends) && Packed(cs, gs2, wc, ends)
    requires k <= |gs1| && k <= |gs2| && gs1[..k] == gs2[..k]
    ensures gs1 == gs2
    decreases |gs1| - k
  {
    if k < |gs1| && k < |gs2| {
      PackedAtK(cs, gs1, k, wc, ends);
      PackedAtK(cs, gs2, k, wc, ends);
      SameGroup(cs, gs1, gs2, k, wc, ends);
      assert gs1[..k + 1] == gs1[..k] + [gs1[k]];
      assert gs2[..k + 1] == gs2[..k] + [gs2[k]];
      SameFrom(cs, gs1, gs2, k + 1, wc, ends);
    } else if k == |gs1| {
      Exhausted(gs1, gs2, k);
    } else {
      Exhausted(gs2, gs1, k);
    }
  }

  /** What the properties say about group `k` and the cut after it. */
  predicate PackedAt(gs: seq<seq<Cue>>, k: nat, wc: Cue -> nat, ends: Cue -> bool)
    requires k < |gs|
  {
    (k + 1 < |gs| ==> Cut(gs[..k + 1], gs[k + 1], wc, ends))
    && Fits(gs[k], wc) && InnerPlain(gs[k], ends)
    && (|gs[k]| > 1 && ends(gs[k][0]) ==> k > 0 && !Shut(gs[..k], wc, ends))
  }

  lemma {:induction false} PackedAtK(cs: seq<Cue>, gs: seq<seq<Cue>>, k: nat, wc: Cue -> nat, ends: Cue -> bool)
    requires Packed(cs, gs, wc, ends) && k < |gs|
    ensures PackedAt(gs, k, wc, ends)
  {
    if k + 1 < |gs| {
      assert Cut(gs[..k + 1], gs[k + 1], wc, ends);
    }
  }

  /** Two valid groupings that agree before group `k` agree on it. */
  lemma {:induction false} SameGroup(cs: seq<Cue>, gs1: seq<seq<Cue>>, gs2: seq<seq<Cue>>, k: nat,
                                     wc: Cue -> nat, ends: Cue -> bool)
    requires Flatten(gs1) == cs && Flatten(gs2) == cs && NonEmpty(gs1) && NonEmpty(gs2)
    requires k < |gs1| && k < |gs2| && gs1[..k] == gs2[..k]
    requires PackedAt(gs1, k, wc, ends) && PackedAt(gs2, k, wc, ends)
    ensures gs1[k] == gs2[k]
  {
    NotShorter(cs, gs1, gs2, k, wc, ends);
    NotShorter(cs, gs2, gs1, k, wc, ends);
    var p := GroupAt(gs1, k);
    var p2 := GroupAt(gs2, k);
  }

  /** A grouping that agrees with a shorter one on all of the shorter one's groups covers more. */
  lemma {:induction false} Exhausted(gs1: seq<seq<Cue>>, gs2: seq<seq<Cue>>, k: nat)
    requires k == |gs1| && k <= |gs2| && gs1[..k] == gs2[..k] && NonEmpty(gs2) && Flatten(gs1) == Flatten(gs2)
    ensures gs1 == gs2
  {
    assert gs1[..k] == gs1;
    if k < |gs2| {
      var p := GroupAt(gs2, k);
    }
    assert gs2[..k] == gs2;
  }

  /** Only one grouping has all the properties. */
  lemma {:induction false} PackedUnique(cs: seq<Cue>, gs1: seq<seq<Cue>>, gs2: seq<seq<Cue>>,
                                        wc: Cue -> nat, ends: Cue -> bool)
    requires Packed(cs, gs1, wc, ends) && Packed(cs, gs2, wc, ends)
    ensures gs1 == gs2
  {
    SameFrom(cs, gs1, gs2, 0, wc, ends);
  }

  /** The groups of `merge_subtitles` are the one grouping of the cues with all the properties above. */
  lemma {:induction false} GroupsUnique(cs: seq<Cue>, gs: seq<seq<Cue>>)
    ensures Packed(cs, gs, CueWords, CuePunct) <==> gs == Groups(cs)
  {
    GroupsPacked(cs);
    if Packed(cs, gs, CueWords, CuePunct) {
      PackedUnique(cs, gs, Groups(cs), CueWords, CuePunct);
    }
  }
  // ---------------------------------------------------------------------------
  // Merging a group into one cue
  // ---------------------------------------------------------------------------

  /**
   * `start, end = timestamp.split(' --> ')` with both sides stripped; the
   * unpacking fails unless the separator occurs exactly once.
   */
  function ParseTimestamp(ts: string): (r: Result<(string, string)>)
    ensures r.Ok? ==> Contains(ts, Arrow)
  {
    var i := Find(ts, Arrow);
    if i < 0 then Err("not enough values to unpack")
    else if Contains(ts[i + |Arrow|..], Arrow) then Err("too many values to unpack")
    else Ok((Strip(ts[..i]), Strip(ts[i + |Arrow|..])))
  }

  /**
   * `ts` reads as `a --> b` where this ` --> ` is the first one and `b`
   * holds no other, so that `split(' --> ')` gives exactly `a` and `b`.
   */
  predicate SplitsInTwo(ts: string, a: string, b: string) {
    ts == a + Arrow + b && !Contains(a + Arrow[..|Arrow| - 1], Arrow) && !Contains(b, Arrow)
  }

  /** The timing line splits into exactly two times. */
  ghost predicate TwoTimes(ts: string) {
    exists a, b :: SplitsInTwo(ts, a, b)
  }

  /** No arrow starts inside the part before the first one. */
  lemma {:induction false} NoArrowInHead(a: string, b: string, i: nat)
    requires i < |a| && !Contains(a + Arrow[..|Arrow| - 1], Arrow)
    ensures !StartsWith((a + Arrow + b)[i..], Arrow)
  {
    var h := a + Arrow[..|Arrow| - 1];
    var ts := a + Arrow + b;
    if StartsWith(ts[i..], Arrow) {
      assert StartsWith(h[i..], Arrow) by {
        assert h[i..][..|Arrow|] == ts[i..][..|Arrow|];
      }
      ContainsAt(h, Arrow, i);
    }
  }

  /** The unpacking around the first arrow, when no other arrow follows it. */
  lemma {:induction false} ParseAt(ts: string, i: nat)
    requires i as int == Find(ts, Arrow) && !Contains(ts[i + |Arrow|..], Arrow)
    ensures ParseTimestamp(ts) == Ok((Strip(ts[..i]), Strip(ts[i + |Arrow|..])))
  {
  }

  /** The first arrow of `a --> b` is the one after `a` when `a` and the arrow's first four characters hold none. */
  lemma {:induction false} FirstArrow(a: string, b: string)
    requires !Contains(a + Arrow[..|Arrow| - 1], Arrow)
    ensures Find(a + Arrow + b, Arrow) == |a|
  {
    var ts := a + Arrow + b;
    var n := |a|;
    assert ts[n..][..|Arrow|] == Arrow;
    ContainsAt(ts, Arrow, n);
    var i := Find(ts, Arrow);
    if i < n {
      NoArrowInHead(a, b, i);
    }
  }

  /** A timing line of two parts parses into the two parts, stripped. */
  lemma {:induction false} ParseTimestampComplete(ts: string, a: string, b: string)
    requires SplitsInTwo(ts, a, b)
    ensures ParseTimestamp(ts) == Ok((Strip(a), Strip(b)))
  {
    FirstArrow(a, b);
    assert ts[..|a|] == a && ts[|a| + |Arrow|..] == b;
    ParseAt(ts, |a|);
  }

  /** Where the first arrow is, and that no other follows it, when the unpacking succeeds. */
  lemma {:induction false} ParseOk(ts: string) returns (i: nat)
    requires ParseTimestamp(ts).Ok?
    ensures i as int == Find(ts, Arrow) && !Contains(ts[i + |Arrow|..], Arrow)
  {
    i := Find(ts, Arrow);
  }

  lemma {:induction false} Around(ts: string, i: nat, m: string)
    requires i + |m| <= |ts| && ts[i..i + |m|] == m
    ensures ts == ts[..i] + m + ts[i + |m|..]
  {
  }

  /** A run inside a prefix of `ts` is the same run of `ts`. */
  lemma {:induction false} InPrefix(ts: string, h: string, j: nat, n: nat)
    requires j + n <= |h| <= |ts| && h == ts[..|h|]
    ensures ts[j..][..n] == h[j..j + n]
  {
  }

  /** Nothing before the first arrow and the first four characters of it holds an arrow. */
  lemma {:induction false} HeadFree(ts: string, i: nat)
    requires i as int == Find(ts, Arrow)
    ensures !Contains(ts[..i] + Arrow[..|Arrow| - 1], Arrow)
  {
    var h := ts[..i] + Arrow[..|Arrow| - 1];
    assert h == ts[..i + |Arrow| - 1];
    if Contains(h, Arrow) {
      var j := ContainsIndex(h, Arrow);
      InPrefix(ts, h, j, |Arrow|);
    }
  }

  /** A timing line that parses is two parts around its first arrow. */
  lemma {:induction false} ParseTimestampSound(ts: string) returns (a: string, b: string)
    requires ParseTimestamp(ts).Ok?
    ensures SplitsInTwo(ts, a, b) && ParseTimestamp(ts).value == (Strip(a), Strip(b))
  {
    var i := ParseOk(ts);
    a, b := ts[..i], ts[i + |Arrow|..];
    Around(ts, i, Arrow);
    HeadFree(ts, i);
    ParseAt(ts, i);
  }

  /** The unpacking succeeds exactly when the timing line splits into two times. */
  lemma {:induction false} ParseTimestampIff(ts: string)
    ensures ParseTimestamp(ts).Ok? <==> TwoTimes(ts)
  {
    if ParseTimestamp(ts).Ok? {
      var a, b := ParseTimestampSound(ts);
    }
    if TwoTimes(ts) {
      var a, b :| SplitsInTwo(ts, a, b);
      ParseTimestampComplete(ts, a, b);
    }
  }

  /** A text with its line breaks turned into spaces. */
  function OneLine(text: string): string {
    ReplaceAll(text, "\n", " ")
  }

  /** The texts of a group, each on one line. */
  function OneLineTexts(g: seq<Cue>): (r: seq<string>)
    ensures |r| == |g|
  {
    seq(|g|, k requires 0 <= k < |g| => OneLine(g[k].text))
  }

  /**
   * `create_merged_subtitle`: a single cue is kept as it is; otherwise the
   * number of the first cue, the start of the first timing and the end of the
   * last, and the one-line texts joined by spaces.  (An empty group, which
   * the packer never forms, would fail on `group[0]`.)
   */
  function CreateMerged(g: seq<Cue>): (r: Result<Cue>)
    ensures |g| == 0 ==> r.Err?
  {
    if |g| == 0 then Err("list index out of range")
    else if |g| == 1 then Ok(g[0])
    else
      match ParseTimestamp(g[0].timestamp)
      case Err(e) => Err(e)
      case Ok(first) =>
        match ParseTimestamp(g[|g| - 1].timestamp)
        case Err(e) => Err(e)
        case Ok(last) => Ok(Cue(g[0].number, TimingLine(first.0, last.1), Join(OneLineTexts(g), " ")))
  }

  /** The groups merged in order by `merge`; the first group that cannot be merged stops the run. */
  function MergeGroups(gs: seq<seq<Cue>>, merge: seq<Cue> -> Result<Cue>): (r: Result<seq<Cue>>)
    ensures r.Ok? ==> |r.value| == |gs|
    decreases |gs|
  {
    if |gs| == 0 then Ok([])
    else
      match MergeGroups(gs[..|gs| - 1], merge)
      case Err(e) => Err(e)
      case Ok(ms) =>
        match merge(gs[|gs| - 1])
        case Err(e) => Err(e)
        case Ok(c) => Ok(ms + [c])
  }

  /** `merge_subtitles`. */
  function MergeSubtitles(cs: seq<Cue>): (r: Result<seq<Cue>>)
    ensures r.Ok? ==> |r.value| == |Groups(cs)|
    ensures r.Ok? ==> forall k :: 0 <= k < |Groups(cs)| ==> CreateMerged(Groups(cs)[k]) == Ok(r.value[k])
  {
    var r := MergeGroups(Groups(cs), CreateMerged);
    if r.Ok? then (MergeGroupsOk(Groups(cs), CreateMerged); r) else r
  }

  // ---------------------------------------------------------------------------
  // Properties of merging
  // ---------------------------------------------------------------------------

  /** A written timing line splits back into its two times. */
  lemma {:induction false} ParseTimingLine(a: string, b: string)
    requires IsTimeStr(a) && IsTimeStr(b)
    ensures ParseTimestamp(TimingLine(a, b)) == Ok((a, b))
  {
    var line := TimingLine(a, b);
    ArrowAt(line, a, b);
    TimeNoSpace(b);
    NoSpaceNoArrow(b);
    StripOfStripped(a);
    StripOfStripped(b);
  }

  /** The arrow of a written timing line is found right after the start time. */
  lemma {:induction false} ArrowAt(line: string, a: string, b: string)
    requires IsTimeStr(a) && IsTimeStr(b) && line == TimingLine(a, b)
    ensures Find(line, Arrow) == 12 && line[..12] == a && line[12 + |Arrow|..] == b
  {
    assert line[12..17] == Arrow && line[..12] == a && line[17..] == b;
    assert StartsWith(line[12..], Arrow) by {
      assert line[12..][..5] == line[12..17];
    }
    ContainsAt(line, Arrow, 12);
    var i := Find(line, Arrow);
    TimeNoSpace(a);
    if i < 12 {
      NoArrowBefore(line, a, i);
    }
  }

  /** No arrow starts inside a start time that holds no space. */
  lemma {:induction false} NoArrowBefore(line: string, a: string, i: nat)
    requires |a| <= |line| && line[..|a|] == a && !HasChar(a, ' ') && i < |a| && i + |Arrow| <= |line|
    ensures line[i..i + |Arrow|] != Arrow
  {
    assert line[..|a|][i] == line[i];
    assert line[i..i + |Arrow|][0] == line[i];
  }

  lemma {:induction false} TimeNoSpace(t: string)
    requires IsTimeStr(t)
    ensures !HasChar(t, ' ')
  {
  }

  /** A text without spaces does not contain the arrow. */
  lemma {:induction false} NoSpaceNoArrow(s: string)
    requires !HasChar(s, ' ')
    ensures !Contains(s, Arrow)
    decreases |s|
  {
    if |s| > 0 {
      assert !HasChar(s[1..], ' ');
      NoSpaceNoArrow(s[1..]);
    }
    if |s| >= |Arrow| {
      assert s[0] != ' ';
    }
  }

  /**
   * A merged group is timed from the start of its first cue to the end of
   * its last and keeps the first cue's number.
   */
  lemma {:induction false} MergedTiming(g: seq<Cue>, a: string, b: string, c: string, d: string)
    requires |g| >= 2
    requires IsTimeStr(a) && IsTimeStr(b) && IsTimeStr(c) && IsTimeStr(d)
    requires g[0].timestamp == TimingLine(a, b) && g[|g| - 1].timestamp == TimingLine(c, d)
    ensures CreateMerged(g).Ok?
    ensures CreateMerged(g).value.timestamp == TimingLine(a, d)
    ensures CreateMerged(g).value.number == g[0].number
  {
    ParseTimingLine(a, b);
    ParseTimingLine(c, d);
  }

  /** Turning line breaks into spaces keeps the words. */
  lemma {:induction false} OneLineWords(s: string, inWord: bool)
    ensures WordRuns(OneLine(s), inWord) == WordRuns(s, inWord)
    decreases |s|
  {
    if |s| > 0 {
      OneLineWords(s[1..], if s[0] == '\n' then false else IsWordChar(s[0]));
      if StartsWith(s, "\n") {
        var x := ReplaceAll(s[1..], "\n", " ");
        assert OneLine(s) == " " + x;
        assert (" " + x)[1..] == x;
      } else {
        var x := ReplaceAll(s[1..], "\n", " ");
        assert s[0] != '\n';
        assert OneLine(s) == [s[0]] + x;
        assert ([s[0]] + x)[1..] == x;
      }
    }
  }

  /** The joined one-line texts of a group have the words of the whole group. */
  lemma {:induction false} JoinedWords(g: seq<Cue>)
    requires |g| > 0
    ensures CountWords(Join(OneLineTexts(g), " ")) == Total(g, CueWords)
    decreases |g|
  {
    var s := g[|g| - 1];
    var h := g[..|g| - 1];
    assert g == h + [s];
    TotalSnoc(h, s, CueWords);
    if |g| == 1 {
      assert OneLineTexts(g) == [OneLine(s.text)];
      OneLineWords(s.text, false);
    } else {
      JoinStepWords(h, s, g);
      JoinedWords(h);
    }
  }

  lemma {:induction false} JoinStepWords(h: seq<Cue>, s: Cue, g: seq<Cue>)
    requires |h| > 0 && g == h + [s]
    ensures CountWords(Join(OneLineTexts(g), " ")) == CountWords(Join(OneLineTexts(h), " ")) + CueWords(s)
  {
    var x := OneLineTexts(h);
    var y := OneLine(s.text);
    assert OneLineTexts(g) == x + [y];
    JoinAppend(x, y, " ");
    CountWordsSpaceJoin(Join(x, " "), y);
    OneLineWords(s.text, false);
  }

  /** A merged cue carries exactly the words of its group. */
  lemma {:induction false} MergedWords(g: seq<Cue>)
    requires CreateMerged(g).Ok?
    ensures CueWords(CreateMerged(g).value) == Total(g, CueWords)
  {
    if |g| == 1 {
      assert g == [] + [g[0]];
      TotalSnoc([], g[0], CueWords);
    } else {
      assert CreateMerged(g).value.text == Join(OneLineTexts(g), " ");
      JoinedWords(g);
    }
  }

  /** When merging succeeds, cue `k` of the output is the merge of group `k`. */
  lemma {:induction false} MergeGroupsOk(gs: seq<seq<Cue>>, merge: seq<Cue> -> Result<Cue>)
    requires MergeGroups(gs, merge).Ok?
    ensures forall k :: 0 <= k < |gs| ==> merge(gs[k]) == Ok(MergeGroups(gs, merge).value[k])
    decreases |gs|
  {
    if |gs| > 0 {
      var h := gs[..|gs| - 1];
      MergeGroupsOk(h, merge);
      var ms := MergeGroups(h, merge).value;
      var r := MergeGroups(gs, merge).value;
      assert r == ms + [merge(gs[|gs| - 1]).value];
      forall k | 0 <= k < |gs|
        ensures merge(gs[k]) == Ok(r[k])
      {
        if k < |h| {
          assert gs[k] == h[k] && r[k] == ms[k];
        }
      }
    }
  }

  /** A group that cannot be merged makes the whole merge fail. */
  lemma {:induction false} MergeGroupsErr(gs: seq<seq<Cue>>, merge: seq<Cue> -> Result<Cue>, k: nat)
    requires k < |gs| && merge(gs[k]).Err?
    ensures MergeGroups(gs, merge).Err?
    decreases |gs|
  {
    if k < |gs| - 1 {
      var h := gs[..|gs| - 1];
      assert h[k] == gs[k];
      MergeGroupsErr(h, merge, k);
    }
  }

  /** When every group merges, so does the whole run. */
  lemma {:induction false} MergeGroupsAllOk(gs: seq<seq<Cue>>, merge: seq<Cue> -> Result<Cue>)
    requires forall k :: 0 <= k < |gs| ==> merge(gs[k]).Ok?
    ensures MergeGroups(gs, merge).Ok?
    decreases |gs|
  {
    if |gs| > 0 {
      var h := gs[..|gs| - 1];
      assert forall k :: 0 <= k < |h| ==> h[k] == gs[k];
      MergeGroupsAllOk(h, merge);
    }
  }

  /** A group of several cues whose first or last timing line does not split into two times. */
  ghost predicate Unmergeable(g: seq<Cue>) {
    |g| > 1 && (!TwoTimes(g[0].timestamp) || !TwoTimes(g[|g| - 1].timestamp))
  }

  /**
   * A single cue is kept as it is, and a group of several fails exactly
   * when its first or last timing line does not split into two times.
   */
  lemma {:induction false} CreateMergedIff(g: seq<Cue>)
    requires |g| > 0
    ensures |g| == 1 ==> CreateMerged(g) == Ok(g[0])
    ensures CreateMerged(g).Err? <==> Unmergeable(g)
  {
    ParseTimestampIff(g[0].timestamp);
    ParseTimestampIff(g[|g| - 1].timestamp);
  }

  /** `merge_subtitles` fails exactly when one of its groups cannot be merged. */
  lemma {:induction false} MergeSubtitlesErrIff(cs: seq<Cue>)
    ensures MergeSubtitles(cs).Err? <==> exists k :: 0 <= k < |Groups(cs)| && Unmergeable(Groups(cs)[k])
  {
    var gs := Groups(cs);
    GroupsPartition(cs);
    forall k | 0 <= k < |gs|
      ensures CreateMerged(gs[k]).Err? <==> Unmergeable(gs[k])
    {
      CreateMergedIff(gs[k]);
    }
    if exists k :: 0 <= k < |gs| && Unmergeable(gs[k]) {
      var k :| 0 <= k < |gs| && Unmergeable(gs[k]);
      MergeGroupsErr(gs, CreateMerged, k);
    } else {
      MergeGroupsAllOk(gs, CreateMerged);
    }
  }

  /** The merged cues have, together, the words of all the groups. */
  lemma {:induction false} MergeGroupsWords(gs: seq<seq<Cue>>)
    requires MergeGroups(gs, CreateMerged).Ok?
    ensures Total(MergeGroups(gs, CreateMerged).value, CueWords) == Total(Flatten(gs), CueWords)
    decreases |gs|
  {
    if |gs| > 0 {
      var h := gs[..|gs| - 1];
      var g := gs[|gs| - 1];
      assert gs == h + [g];
      MergeGroupsWords(h);
      var ms := MergeGroups(h, CreateMerged).value;
      var c := CreateMerged(g).value;
      MergedWords(g);
      TotalSnoc(ms, c, CueWords);
      FlattenSnoc(h, g);
      TotalAppend(Flatten(h), g, CueWords);
    }
  }

  /** `merge_subtitles` keeps the total word count. */
  lemma {:induction false} MergeKeepsWords(cs: seq<Cue>)
    requires MergeSubtitles(cs).Ok?
    ensures Total(MergeSubtitles(cs).value, CueWords) == Total(cs, CueWords)
  {
    GroupsPartition(cs);
    MergeGroupsWords(Groups(cs));
  }

  /** A group holding a cue of 20 words or more is that cue alone, and it comes out unchanged. */
  lemma {:induction false} MergeKeepsBig(cs: seq<Cue>, k: nat)
    requires MergeSubtitles(cs).Ok? && k < |Groups(cs)|
    requires exists j :: 0 <= j < |Groups(cs)[k]| && CueWords(Groups(cs)[k][j]) >= Cap
    ensures Groups(cs)[k] == [MergeSubtitles(cs).value[k]]
  {
    GroupsFit(cs);
    MergeGroupsOk(Groups(cs), CreateMerged);
  }
  // ---------------------------------------------------------------------------
  // Writing
  // ---------------------------------------------------------------------------

  /** The lines `write_srt` writes for the cue at 1-based position `n`, without the closing empty line. */
  function CueBody(n: int, c: Cue): string {
    NumberedBlock(n, [c.timestamp, c.text])
  }

  /** The cue bodies, numbered from 1. */
  function Bodies(cs: seq<Cue>): (r: seq<string>)
    ensures |r| == |cs|
  {
    seq(|cs|, k requires 0 <= k < |cs| => CueBody(k + 1, cs[k]))
  }

  /** `write_srt`: the cues renumbered from 1, each followed by an empty line. */
  function WriteSrt(cs: seq<Cue>): string {
    Concat(Terminated(Bodies(cs)))
  }

  /** The cues with their numbers replaced by their 1-based positions. */
  function Renumber(cs: seq<Cue>): (r: seq<Cue>)
    ensures |r| == |cs|
  {
    seq(|cs|, k requires 0 <= k < |cs| => cs[k].(number := k + 1))
  }

  /**
   * A cue that survives writing and reading back: a one-line timing, and a
   * text that starts with no newline, ends in a visible character and holds
   * no empty line.
   */
  predicate Writable(c: Cue) {
    |c.timestamp| > 0 && !HasChar(c.timestamp, '\n')
    && |c.text| > 0 && c.text[0] != '\n' && !IsSpace(c.text[|c.text| - 1]) && DoubleFree(c.text)
  }

  lemma {:induction false} NoNewlineDoubleFree(s: string)
    requires !HasChar(s, '\n')
    ensures DoubleFree(s)
  {
    if |s| > 0 {
      assert s[|s| - 1] != '\n';
    }
  }

  /** Two double-free texts linked by one newline stay double-free. */
  lemma {:induction false} DoubleFreeLink(a: string, b: string)
    requires DoubleFree(a) && |a| > 0 && DoubleFree(b) && |b| > 0 && b[0] != '\n'
    ensures DoubleFree(a + "\n" + b)
  {
    var s := a + "\n" + b;
    forall j | 0 <= j < |s| - 1
      ensures !(s[j] == '\n' && s[j + 1] == '\n')
    {
      if j < |a| - 1 {
        assert s[j] == a[j] && s[j + 1] == a[j + 1];
      } else if j == |a| - 1 {
        assert s[j] == a[|a| - 1];
      } else if j == |a| {
        assert s[j + 1] == b[0];
      } else {
        assert s[j] == b[j - |a| - 1] && s[j + 1] == b[j - |a|];
      }
    }
    assert s[|s| - 1] == b[|b| - 1];
  }

  /** A writable cue's body can sit between empty lines. */
  lemma {:induction false} BodyDoubleFree(n: int, c: Cue)
    requires Writable(c)
    ensures DoubleFree(CueBody(n, c))
    ensures |CueBody(n, c)| > 0 && !IsSpace(CueBody(n, c)[0])
    ensures !IsSpace(CueBody(n, c)[|CueBody(n, c)| - 1])
  {
    var num := IntToString(n);
    IntToStringSingle(n);
    NoNewlineDoubleFree(num);
    NoNewlineDoubleFree(c.timestamp);
    DoubleFreeLink(c.timestamp, c.text);
    var rest := c.timestamp + "\n" + c.text;
    assert rest[0] == c.timestamp[0];
    assert c.timestamp[0] != '\n' by {
      assert !HasChar(c.timestamp, '\n');
    }
    DoubleFreeLink(num, rest);
    BodyShape(n, c);
    assert CueBody(n, c)[0] == num[0];
    assert (num + "\n" + rest)[|num + "\n" + rest| - 1] == c.text[|c.text| - 1];
  }

  lemma {:induction false} BodyShape(n: int, c: Cue)
    ensures CueBody(n, c) == IntToString(n) + "\n" + (c.timestamp + "\n" + c.text)
  {
    assert [IntToString(n)] + [c.timestamp, c.text] == [IntToString(n), c.timestamp, c.text];
    Join3(IntToString(n), c.timestamp, c.text, "\n");
  }
  lemma {:induction false} JoinCons(x: string, rest: seq<string>, sep: string)
    requires |rest| >= 1
    ensures Join([x] + rest, sep) == x + sep + Join(rest, sep)
  {
    assert ([x] + rest)[1..] == rest;
  }

  /** A written cue body reads back as the cue with its new number. */
  lemma {:induction false} ReadCueOfBody(n: int, c: Cue)
    requires Writable(c)
    ensures ReadCue(CueBody(n, c)) == Some(Cue(n, c.timestamp, c.text))
  {
    var body := CueBody(n, c);
    BodyDoubleFree(n, c);
    StripOfStripped(body);
    var num := IntToString(n);
    var lines := Split(c.text, '\n');
    assert Join(lines, "\n") == c.text;
    JoinCons(c.timestamp, lines, "\n");
    JoinCons(num, [c.timestamp] + lines, "\n");
    BodyShape(n, c);
    var all := [num] + ([c.timestamp] + lines);
    assert body == Join(all, "\n");
    IntToStringSingle(n);
    assert forall k :: 0 <= k < |all| ==> !HasChar(all[k], '\n') by {
      forall k | 0 <= k < |all|
        ensures !HasChar(all[k], '\n')
      {
        if k >= 2 { assert all[k] == lines[k - 2]; }
      }
    }
    SplitOfJoin(all, '\n');
    assert all[2..] == lines;
    ParseIntOfIntToString(n);
  }

  /** Reading blocks that each read as the corresponding cue gives exactly those cues. */
  lemma {:induction false} ReadAllExact(blocks: seq<string>, read: string -> Option<Cue>, cs: seq<Cue>)
    requires |blocks| == |cs| && forall k :: 0 <= k < |cs| ==> read(blocks[k]) == Some(cs[k])
    ensures ReadAll(blocks, read) == cs
    decreases |blocks|
  {
    if |blocks| > 0 {
      ReadAllExact(blocks[1..], read, cs[1..]);
      assert cs == [cs[0]] + cs[1..];
    }
  }

  /**
   * Writing then parsing gives back the cues, renumbered from 1: the written
   * file has one block per cue, in order, numbered densely.
   */
  lemma {:induction false} WriteThenParse(cs: seq<Cue>)
    requires forall k :: 0 <= k < |cs| ==> Writable(cs[k])
    ensures ParseSrt(WriteSrt(cs)) == Renumber(cs)
  {
    var bodies := Bodies(cs);
    var r := Renumber(cs);
    BodiesRead(cs, bodies, r);
    if |cs| == 0 {
      assert WriteSrt(cs) == "";
      EmptyParses();
    } else {
      var x := Join(bodies, "\n\n");
      WrittenStripped(cs, bodies, x);
      SplitDoubleOfJoin(bodies);
      ReadAllExact(bodies, ReadCue, r);
    }
  }

  /** Each written body reads back as its renumbered cue. */
  lemma {:induction false} BodiesRead(cs: seq<Cue>, bodies: seq<string>, r: seq<Cue>)
    requires forall k :: 0 <= k < |cs| ==> Writable(cs[k])
    requires bodies == Bodies(cs) && r == Renumber(cs)
    ensures |bodies| == |r| == |cs|
    ensures forall k :: 0 <= k < |cs| ==> ReadCue(bodies[k]) == Some(r[k]) && DoubleFree(bodies[k])
  {
    forall k | 0 <= k < |cs|
      ensures ReadCue(bodies[k]) == Some(r[k])
      ensures DoubleFree(bodies[k])
    {
      BodyReadsAt(cs, k, bodies[k], r[k]);
    }
  }

  lemma {:induction false} BodyReadsAt(cs: seq<Cue>, k: nat, b: string, c: Cue)
    requires k < |cs| && Writable(cs[k])
    requires b == Bodies(cs)[k] && c == Renumber(cs)[k]
    ensures ReadCue(b) == Some(c) && DoubleFree(b)
  {
    assert b == CueBody(k + 1, cs[k]);
    assert c == Cue(k + 1, cs[k].timestamp, cs[k].text);
    ReadCueOfBody(k + 1, cs[k]);
    BodyDoubleFree(k + 1, cs[k]);
  }

  /** Stripping the written file leaves the bodies joined by empty lines. */
  lemma {:induction false} WrittenStripped(cs: seq<Cue>, bodies: seq<string>, x: string)
    requires |cs| > 0 && forall k :: 0 <= k < |cs| ==> Writable(cs[k])
    requires bodies == Bodies(cs) && x == Join(bodies, "\n\n")
    ensures Strip(WriteSrt(cs)) == x
  {
    TerminatedConcat(bodies);
    BodyDoubleFree(1, cs[0]);
    BodyDoubleFree(|cs|, cs[|cs| - 1]);
    JoinFirstChar(bodies);
    JoinLastChar(bodies, "\n\n");
    StripTerminated(x);
  }

  lemma {:induction false} EmptyParses()
    ensures ParseSrt("") == []
  {
    assert Strip("") == "";
    MatcherDoubleNewline();
    assert FirstMatch("", DoubleNewlineLen) == 0;
    assert SplitDoubleNewline("") == [""];
    assert IndexOfChar("", '\n') == 0;
    assert Split("", '\n') == [""];
  }
}
