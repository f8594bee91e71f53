/**
 * The punctuation merger of merge_Sub5.py.
 *
 * Cues are read from blocks separated by blank lines (`\n\s*\n`); a block of
 * three lines or more whose first line is not an integer is an error.  Cues
 * are then collected left to right into sentences: a cue whose stripped text
 * ends in `. , ? !` closes the current sentence, and whatever is left at the
 * end forms a last one.  Each sentence becomes one cue numbered from 1 (first
 * start, last end, stripped texts joined by spaces), and the cues are written
 * with an empty line between neighbours and none after the last.
 */
module PunctMerger {
  import opened Wrappers
  import opened Text
  import opened Decimal
  import opened Blocks
  import opened Timestamp
  import opened Srt
  import opened WordPacker

  // ---------------------------------------------------------------------------
  // Reading
  // ---------------------------------------------------------------------------

  /**
   * One block of `parse_srt_file`: a blank block or one of fewer than three
   * lines is skipped, and a first line that `int` rejects is an error.
   */
  function ReadBlock(block: string): (r: Result<Option<Cue>>)
    ensures r.Ok? && r.value.Some? ==> !HasChar(r.value.value.timestamp, '\n')
  {
    if IsBlank(block) then Ok(None)
    else
      var lines := Split(Strip(block), '\n');
      if |lines| < 3 then Ok(None)
      else
        match ParseInt(lines[0])
        case None => Err("invalid literal for int() with base 10")
        case Some(n) => Ok(Some(Cue(n, lines[1], Join(lines[2..], "\n"))))
  }

  /** The cues of the blocks, in order; the first block that fails stops the reading. */
  function ReadBlocks(blocks: seq<string>, read: string -> Result<Option<Cue>>): (r: Result<seq<Cue>>)
    ensures r.Ok? ==> |r.value| <= |blocks|
    decreases |blocks|
  {
    if |blocks| == 0 then Ok([])
    else
      match read(blocks[0])
      case Err(e) => Err(e)
      case Ok(o) =>
        match ReadBlocks(blocks[1..], read)
        case Err(e) => Err(e)
        case Ok(rest) => Ok(if o.Some? then [o.value] + rest else rest)
  }

  /** `parse_srt_file` on the file's content. */
  function ParseSrtFile(content: string): (r: Result<seq<Cue>>)
    ensures r.Ok? ==> |r.value| <= |SplitBlank(Strip(content))|
  {
    ReadBlocks(SplitBlank(Strip(content)), ReadBlock)
  }

  /**
   * Where the block reader of merge_Sub3.py skips a block whose first line is
   * not an integer, this one fails; on every other block the two agree.
   */
  lemma {:induction false} ReadBlockVsReadCue(block: string)
    ensures ReadBlock(block).Ok? ==> ReadBlock(block).value == ReadCue(block)
    ensures ReadBlock(block).Err? <==> ReadCue(block).None? && |Split(Strip(block), '\n')| >= 3
  {
    if IsBlank(block) {
      assert Strip(block) == "";
      assert IndexOfChar("", '\n') == 0;
      assert Split("", '\n') == [""];
    }
  }

  /** Reading fails exactly when some block fails, and then with the first failure. */
  lemma {:induction false} ReadBlocksErr(blocks: seq<string>, read: string -> Result<Option<Cue>>)
    ensures ReadBlocks(blocks, read).Err? <==> exists k :: 0 <= k < |blocks| && read(blocks[k]).Err?
    ensures ReadBlocks(blocks, read).Err? ==>
      exists k :: 0 <= k < |blocks| && read(blocks[k]) == Err(ReadBlocks(blocks, read).error)
        && forall j :: 0 <= j < k ==> read(blocks[j]).Ok?
    decreases |blocks|
  {
    if |blocks| > 0 {
      ReadBlocksErr(blocks[1..], read);
      if read(blocks[0]).Ok? {
        if ReadBlocks(blocks[1..], read).Err? {
          var k :| 0 <= k < |blocks| - 1 && read(blocks[1..][k]) == Err(ReadBlocks(blocks[1..], read).error)
            && forall j :: 0 <= j < k ==> read(blocks[1..][j]).Ok?;
          assert read(blocks[k + 1]) == Err(ReadBlocks(blocks, read).error);
          assert forall j :: 0 <= j < k + 1 ==> read(blocks[j]).Ok? by {
            forall j | 0 <= j < k + 1 ensures read(blocks[j]).Ok? {
              if j > 0 { assert blocks[j] == blocks[1..][j - 1]; }
            }
          }
        } else {
          forall k | 0 <= k < |blocks| ensures read(blocks[k]).Ok? {
            if k > 0 { assert blocks[k] == blocks[1..][k - 1]; }
          }
        }
      }
    }
  }

  /** Blocks that each read as the corresponding cue read as exactly those cues. */
  lemma {:induction false} ReadBlocksExact(blocks: seq<string>, read: string -> Result<Option<Cue>>, cs: seq<Cue>)
    requires |blocks| == |cs| && forall k :: 0 <= k < |cs| ==> read(blocks[k]) == Ok(Some(cs[k]))
    ensures ReadBlocks(blocks, read) == Ok(cs)
    decreases |blocks|
  {
    if |blocks| > 0 {
      ReadBlocksExact(blocks[1..], read, cs[1..]);
      assert cs == [cs[0]] + cs[1..];
    }
  }

  // ---------------------------------------------------------------------------
  // Sentences
  // ---------------------------------------------------------------------------

  /**
   * The grouping loop of `merge_subtitles`: `done` are the closed groups and
   * `group` the open one; a cue for which `ends` holds closes its group.
   */
  function Chunk(cs: seq<Cue>, ends: Cue -> bool, done: seq<seq<Cue>>, group: seq<Cue>): (r: seq<seq<Cue>>)
    ensures |r| >= |done|
    decreases |cs|
  {
    if |cs| == 0 then Flush(done, group)
    else
      var g := group + [cs[0]];
      if ends(cs[0]) then Chunk(cs[1..], ends, done + [g], [])
      else Chunk(cs[1..], ends, done, g)
  }

  /** The groups `merge_subtitles` forms from the cues. */
  function Sentences(cs: seq<Cue>): seq<seq<Cue>> {
    Chunk(cs, CuePunct, [], [])
  }

  /** The last element of a non-empty group. */
  function LastOf(g: seq<Cue>): Cue
    requires |g| > 0
  {
    g[|g| - 1]
  }

  /** No cue of `g` closes a group. */
  predicate Open(g: seq<Cue>, ends: Cue -> bool) {
    forall j :: 0 <= j < |g| ==> !ends(g[j])
  }

  /** A closed group: non-empty, closed by its last cue and by no earlier one. */
  predicate Sentence(g: seq<Cue>, ends: Cue -> bool) {
    |g| > 0 && ends(LastOf(g)) && Open(g[..|g| - 1], ends)
  }

  /**
   * The reference description of the grouping: the groups are non-empty,
   * cover the cues in order, and every group but the last is a sentence,
   * while the last may also be left open.
   */
  predicate Sentenced(cs: seq<Cue>, gs: seq<seq<Cue>>, ends: Cue -> bool) {
    Flatten(gs) == cs
    && (forall k :: 0 <= k < |gs| - 1 ==> Sentence(gs[k], ends))
    && (|gs| > 0 ==> Sentence(gs[|gs| - 1], ends) || (|gs[|gs| - 1]| > 0 && Open(gs[|gs| - 1], ends)))
  }

  lemma {:induction false} FlattenCons(g: seq<Cue>, gs: seq<seq<Cue>>)
    ensures Flatten([g] + gs) == g + Flatten(gs)
    decreases |gs|
  {
    if |gs| == 0 {
      assert [g] + gs == [] + [g];
      FlattenSnoc([], g);
    } else {
      var init, last := gs[..|gs| - 1], gs[|gs| - 1];
      var big := [g] + init;
      assert [g] + gs == big + [last];
      assert init + [last] == gs;
      FlattenCons(g, init);
      FlattenSnoc(big, last);
      FlattenSnoc(init, last);
      CueAssoc(g, Flatten(init), last);
    }
  }

  lemma {:induction false} CueAssoc(a: seq<Cue>, b: seq<Cue>, c: seq<Cue>)
    ensures (a + b) + c == a + (b + c)
  {
  }

  /** Every group `Chunk` returns covers the cues in order. */
  lemma {:induction false} ChunkFlatten(cs: seq<Cue>, ends: Cue -> bool, done: seq<seq<Cue>>, group: seq<Cue>)
    ensures Flatten(Chunk(cs, ends, done, group)) == Flatten(done) + group + cs
    decreases |cs|
  {
    if |cs| == 0 {
      FlushFlatten(done, group);
    } else {
      var g := group + [cs[0]];
      ShiftOne(group, cs[0], cs[1..], cs);
      if ends(cs[0]) {
        ChunkFlatten(cs[1..], ends, done + [g], []);
        FlattenSnoc(done, g);
      } else {
        ChunkFlatten(cs[1..], ends, done, g);
      }
    }
  }

  /** The groups `Chunk` returns fit the reference description, given closed groups and an open one so far. */
  lemma {:induction false} ChunkShape(cs: seq<Cue>, ends: Cue -> bool, done: seq<seq<Cue>>, group: seq<Cue>)
    requires forall k :: 0 <= k < |done| ==> Sentence(done[k], ends)
    requires Open(group, ends)
    ensures var r := Chunk(cs, ends, done, group);
      (forall k :: 0 <= k < |r| - 1 ==> Sentence(r[k], ends))
      && (|r| > 0 ==> Sentence(r[|r| - 1], ends) || (|r[|r| - 1]| > 0 && Open(r[|r| - 1], ends)))
    decreases |cs|
  {
    if |cs| > 0 {
      var g := group + [cs[0]];
      if ends(cs[0]) {
        assert g[..|g| - 1] == group;
        assert Sentence(g, ends);
        ChunkShape(cs[1..], ends, done + [g], []);
      } else {
        ChunkShape(cs[1..], ends, done, g);
      }
    }
  }

  lemma {:induction false} ChunkSentenced(cs: seq<Cue>, ends: Cue -> bool, r: seq<seq<Cue>>)
    requires r == Chunk(cs, ends, [], [])
    ensures Sentenced(cs, r, ends)
  {
    ChunkFlatten(cs, ends, [], []);
    ChunkShape(cs, ends, [], []);
    assert Flatten([]) + [] + cs == cs;
  }

  /** The groups of `merge_subtitles` are the sentences of the cues, in order. */
  lemma {:induction false} SentencesSound(cs: seq<Cue>)
    ensures Sentenced(cs, Sentences(cs), CuePunct)
  {
    ChunkSentenced(cs, CuePunct, Sentences(cs));
  }

  /** The open group put in front of the remaining groups. */
  function Glue(group: seq<Cue>, gs: seq<seq<Cue>>): seq<seq<Cue>> {
    if |gs| == 0 then Flush([], group) else [group + gs[0]] + gs[1..]
  }

  /** Only the grouping `Chunk` returns fits the reference description. */
  lemma {:induction false} ChunkUnique(cs: seq<Cue>, ends: Cue -> bool, done: seq<seq<Cue>>, group: seq<Cue>,
                                       gs: seq<seq<Cue>>)
    requires Open(group, ends) && Sentenced(cs, gs, ends)
    ensures Chunk(cs, ends, done, group) == done + Glue(group, gs)
    decreases |cs|, 1
  {
    if |gs| == 0 {
      assert Flatten(gs) == [];
      assert Chunk(cs, ends, done, group) == Flush(done, group);
    } else {
      SentencedTail(cs, gs, ends);
      var g0, rest := gs[0], gs[1..];
      assert gs == [g0] + rest;
      if ends(cs[0]) {
        UniqueClose(cs, ends, done, group, g0, rest, Flatten(rest));
      } else if |g0| == 1 {
        UniqueLast(cs, ends, done, group, g0, rest);
      } else {
        SentencedShrink(cs, gs, ends);
        UniqueGrow(cs, ends, done, group, g0, rest);
      }
    }
  }

  /** The first group, the rest, and what the rest covers. */
  lemma {:induction false} SentencedTail(cs: seq<Cue>, gs: seq<seq<Cue>>, ends: Cue -> bool)
    requires Sentenced(cs, gs, ends) && |gs| > 0
    ensures cs == gs[0] + Flatten(gs[1..]) && |gs[0]| > 0 && |cs| > 0 && cs[0] == gs[0][0]
    ensures Sentenced(Flatten(gs[1..]), gs[1..], ends)
    ensures Sentence(gs[0], ends) || (|gs| == 1 && Open(gs[0], ends))
  {
    FlattenCons(gs[0], gs[1..]);
    assert [gs[0]] + gs[1..] == gs;
    var rest := gs[1..];
    assert forall k :: 0 <= k < |rest| ==> rest[k] == gs[k + 1];
  }

  /** Dropping the first cue of a first group of two cues or more. */
  lemma {:induction false} SentencedShrink(cs: seq<Cue>, gs: seq<seq<Cue>>, ends: Cue -> bool)
    requires Sentenced(cs, gs, ends) && |gs| > 0 && |gs[0]| > 1
    requires cs == gs[0] + Flatten(gs[1..])
    requires Sentence(gs[0], ends) || (|gs| == 1 && Open(gs[0], ends))
    ensures Sentenced(cs[1..], [gs[0][1..]] + gs[1..], ends)
  {
    var h := gs[0][1..];
    var hs := [h] + gs[1..];
    FlattenCons(h, gs[1..]);
    assert cs[1..] == h + Flatten(gs[1..]);
    if Sentence(gs[0], ends) {
      assert LastOf(h) == LastOf(gs[0]);
      assert h[..|h| - 1] == gs[0][..|gs[0]| - 1][1..];
    }
    assert forall k :: 1 <= k < |hs| ==> hs[k] == gs[k];
  }

  /** A group whose first cue closes it holds that cue alone. */
  lemma {:induction false} ClosedAtOnce(g: seq<Cue>, ends: Cue -> bool)
    requires |g| > 0 && ends(g[0]) && (Sentence(g, ends) || Open(g, ends))
    ensures g == [g[0]]
  {
  }

  lemma {:induction false} GlueEmpty(gs: seq<seq<Cue>>)
    ensures Glue([], gs) == gs
  {
    if |gs| > 0 {
      assert [] + gs[0] == gs[0];
      assert [gs[0]] + gs[1..] == gs;
    }
  }

  lemma {:induction false} UniqueClose(cs: seq<Cue>, ends: Cue -> bool, done: seq<seq<Cue>>, group: seq<Cue>,
                                       g0: seq<Cue>, rest: seq<seq<Cue>>, tail: seq<Cue>)
    requires Open(group, ends) && |g0| > 0 && |cs| > 0 && cs[0] == g0[0]
    requires cs == g0 + tail && tail == Flatten(rest) && Sentenced(tail, rest, ends)
    requires Sentence(g0, ends) || Open(g0, ends)
    requires ends(cs[0])
    ensures Chunk(cs, ends, done, group) == done + Glue(group, [g0] + rest)
    decreases |cs|, 0
  {
    ClosedAtOnce(g0, ends);
    assert cs[1..] == tail;
    ChunkUnique(tail, ends, done + [group + [cs[0]]], [], rest);
    GlueEmpty(rest);
  }

  lemma {:induction false} UniqueLast(cs: seq<Cue>, ends: Cue -> bool, done: seq<seq<Cue>>, group: seq<Cue>,
                                      g0: seq<Cue>, rest: seq<seq<Cue>>)
    requires cs == g0 + Flatten(rest) && |g0| == 1 && |cs| > 0 && cs[0] == g0[0]
    requires Sentence(g0, ends) || (|rest| == 0 && Open(g0, ends))
    requires !ends(cs[0])
    ensures Chunk(cs, ends, done, group) == done + Glue(group, [g0] + rest)
    decreases |cs|, 0
  {
    assert |rest| == 0;
    assert Flatten(rest) == [];
    assert cs == [cs[0]] && cs[1..] == [];
    assert g0 == [cs[0]];
    assert Chunk(cs, ends, done, group) == Flush(done, group + [cs[0]]);
    assert ([g0] + rest)[1..] == [];
  }

  lemma {:induction false} UniqueGrow(cs: seq<Cue>, ends: Cue -> bool, done: seq<seq<Cue>>, group: seq<Cue>,
                                      g0: seq<Cue>, rest: seq<seq<Cue>>)
    requires Open(group, ends) && |g0| > 1 && |cs| > 0 && cs[0] == g0[0]
    requires Sentenced(cs[1..], [g0[1..]] + rest, ends)
    requires !ends(cs[0])
    ensures Chunk(cs, ends, done, group) == done + Glue(group, [g0] + rest)
    decreases |cs|, 0
  {
    var g := group + [cs[0]];
    var hs := [g0[1..]] + rest;
    ChunkUnique(cs[1..], ends, done, g, hs);
    assert g + g0[1..] == group + g0;
    assert hs[1..] == rest;
    assert ([g0] + rest)[1..] == rest;
  }

  /** The grouping of `merge_subtitles` is the one and only grouping into sentences. */
  lemma {:induction false} SentencesUnique(cs: seq<Cue>, gs: seq<seq<Cue>>)
    requires Sentenced(cs, gs, CuePunct)
    ensures gs == Sentences(cs)
  {
    ChunkUnique(cs, CuePunct, [], [], gs);
    GlueEmpty(gs);
  }

  // ---------------------------------------------------------------------------
  // Merging
  // ---------------------------------------------------------------------------

  /** The stripped texts of a group, in order. */
  function StrippedTexts(g: seq<Cue>): (r: seq<string>)
    ensures |r| == |g|
    decreases |g|
  {
    if |g| == 0 then [] else [Strip(g[0].text)] + StrippedTexts(g[1..])
  }

  /**
   * One merged cue, numbered `number`: the start of the first member's
   * timing, the end of the last member's, and the stripped texts joined by
   * single spaces; a timing line that does not split into two parts is an
   * error.
   */
  function MergeGroup(g: seq<Cue>, number: int): (r: Result<Cue>)
    ensures r.Ok? ==> |g| > 0 && r.value.number == number
  {
    if |g| == 0 then Err("list index out of range")
    else
      match ParseTimestamp(g[0].timestamp)
      case Err(e) => Err(e)
      case Ok(first) =>
        match ParseTimestamp(g[|g| - 1].timestamp)
        case Err(e) => Err(e)
        case Ok(last) => Ok(Cue(number, TimingLine(first.0, last.1), Join(StrippedTexts(g), " ")))
  }

  /** The groups merged in order, each numbered one past the cues merged before it. */
  function MergeAll(gs: seq<seq<Cue>>, merge: (seq<Cue>, int) -> Result<Cue>): (r: Result<seq<Cue>>)
    ensures r.Ok? ==> |r.value| == |gs|
    decreases |gs|
  {
    if |gs| == 0 then Ok([])
    else
      match MergeAll(gs[..|gs| - 1], merge)
      case Err(e) => Err(e)
      case Ok(done) =>
        match merge(gs[|gs| - 1], |done| + 1)
        case Err(e) => Err(e)
        case Ok(c) => Ok(done + [c])
  }

  /** `merge_subtitles`. */
  function MergeSubtitles(cs: seq<Cue>): (r: Result<seq<Cue>>)
    ensures r.Ok? ==> |r.value| == |Sentences(cs)|
    ensures r.Ok? ==> forall k :: 0 <= k < |Sentences(cs)| ==> MergeGroup(Sentences(cs)[k], k + 1) == Ok(r.value[k])
  {
    if |cs| == 0 then
      assert Sentences(cs) == [];
      Ok([])
    else
      var r := MergeAll(Sentences(cs), MergeGroup);
      if r.Ok? then (MergeAllOk(Sentences(cs), MergeGroup); r) else r
  }

  /** Merged cue `k` is the merge of group `k` under the number `k + 1`. */
  lemma {:induction false} MergeAllOk(gs: seq<seq<Cue>>, merge: (seq<Cue>, int) -> Result<Cue>)
    requires MergeAll(gs, merge).Ok?
    ensures forall k :: 0 <= k < |gs| ==> merge(gs[k], k + 1) == Ok(MergeAll(gs, merge).value[k])
    decreases |gs|
  {
    if |gs| > 0 {
      var h := gs[..|gs| - 1];
      MergeAllOk(h, merge);
      var ms := MergeAll(h, merge).value;
      var r := MergeAll(gs, merge).value;
      assert r == ms + [merge(gs[|gs| - 1], |gs|).value];
      forall k | 0 <= k < |gs|
        ensures merge(gs[k], k + 1) == Ok(r[k])
      {
        if k < |h| {
          assert gs[k] == h[k] && r[k] == ms[k];
        }
      }
    }
  }

  /** A group that cannot be merged makes the whole merge fail, with the first such group's error. */
  lemma {:induction false} MergeAllErr(gs: seq<seq<Cue>>, merge: (seq<Cue>, int) -> Result<Cue>, k: nat)
    requires k < |gs| && merge(gs[k], k + 1).Err?
    requires forall j :: 0 <= j < k ==> merge(gs[j], j + 1).Ok?
    ensures MergeAll(gs, merge) == Err(merge(gs[k], k + 1).error)
    decreases |gs|
  {
    var h := gs[..|gs| - 1];
    if k < |gs| - 1 {
      assert h[k] == gs[k];
      assert forall j :: 0 <= j < k ==> h[j] == gs[j];
      MergeAllErr(h, merge, k);
    } else {
      assert forall j :: 0 <= j < |h| ==> h[j] == gs[j];
      MergeAllAllOk(h, merge);
    }
  }

  /** When every group merges, so does the whole run. */
  lemma {:induction false} MergeAllAllOk(gs: seq<seq<Cue>>, merge: (seq<Cue>, int) -> Result<Cue>)
    requires forall k :: 0 <= k < |gs| ==> merge(gs[k], k + 1).Ok?
    ensures MergeAll(gs, merge).Ok?
    decreases |gs|
  {
    if |gs| > 0 {
      var h := gs[..|gs| - 1];
      assert forall k :: 0 <= k < |h| ==> h[k] == gs[k];
      MergeAllAllOk(h, merge);
    }
  }

  // ---------------------------------------------------------------------------
  // What merging keeps
  // ---------------------------------------------------------------------------

  /** The texts of the cues, in order. */
  function CueTexts(cs: seq<Cue>): (r: seq<string>)
    ensures |r| == |cs|
    decreases |cs|
  {
    if |cs| == 0 then [] else [cs[0].text] + CueTexts(cs[1..])
  }

  /** The visible characters of all the cues' texts, in order. */
  function Content(cs: seq<Cue>): string {
    SquashAll(CueTexts(cs))
  }

  lemma {:induction false} ContentAppend(a: seq<Cue>, b: seq<Cue>)
    ensures Content(a + b) == Content(a) + Content(b)
  {
    TextsAppend(a, b);
    SquashAllAppend(CueTexts(a), CueTexts(b));
  }

  lemma {:induction false} TextsAppend(a: seq<Cue>, b: seq<Cue>)
    ensures CueTexts(a + b) == CueTexts(a) + CueTexts(b)
    decreases |a|
  {
    if |a| == 0 {
      assert a + b == b;
    } else {
      assert (a + b)[1..] == a[1..] + b;
      TextsAppend(a[1..], b);
    }
  }

  /** Stripping each text drops no visible character. */
  lemma {:induction false} StrippedContent(g: seq<Cue>)
    ensures SquashAll(StrippedTexts(g)) == Content(g)
    decreases |g|
  {
    if |g| > 0 {
      var rest := g[1..];
      StrippedContent(rest);
      SquashAllCons(Strip(g[0].text), StrippedTexts(rest));
      SquashAllCons(g[0].text, CueTexts(rest));
      SquashStrip(g[0].text);
    }
  }

  lemma {:induction false} SquashAllCons(x: string, rest: seq<string>)
    ensures SquashAll([x] + rest) == Squash(x) + SquashAll(rest)
  {
    assert ([x] + rest)[1..] == rest;
  }

  /** A merged cue holds exactly the visible characters of its group, in order. */
  lemma {:induction false} MergedContent(g: seq<Cue>, n: int)
    requires MergeGroup(g, n).Ok?
    ensures Squash(MergeGroup(g, n).value.text) == Content(g)
  {
    assert MergeGroup(g, n).value.text == Join(StrippedTexts(g), " ");
    SquashJoinSpace(StrippedTexts(g));
    StrippedContent(g);
  }

  lemma {:induction false} ContentSnoc(ms: seq<Cue>, c: Cue)
    ensures Content(ms + [c]) == Content(ms) + Squash(c.text)
  {
    ContentAppend(ms, [c]);
    assert CueTexts([c]) == [c.text];
    assert SquashAll([c.text]) == Squash(c.text) + SquashAll([]);
  }

  /** Merging group by group keeps the visible text when each merge does. */
  lemma {:induction false} MergeAllContent(gs: seq<seq<Cue>>, merge: (seq<Cue>, int) -> Result<Cue>)
    requires MergeAll(gs, merge).Ok?
    requires forall g, n :: merge(g, n).Ok? ==> Squash(merge(g, n).value.text) == Content(g)
    ensures Content(MergeAll(gs, merge).value) == Content(Flatten(gs))
    decreases |gs|
  {
    if |gs| > 0 {
      var h := gs[..|gs| - 1];
      var g := gs[|gs| - 1];
      assert gs == h + [g];
      MergeAllContent(h, merge);
      var ms := MergeAll(h, merge).value;
      var c := merge(g, |ms| + 1).value;
      assert MergeAll(gs, merge).value == ms + [c];
      ContentSnoc(ms, c);
      FlattenSnoc(h, g);
      ContentAppend(Flatten(h), g);
    }
  }

  /** `merge_subtitles` keeps every visible character of the cue texts, in order. */
  lemma {:induction false} MergeKeepsContent(cs: seq<Cue>)
    requires MergeSubtitles(cs).Ok?
    ensures Content(MergeSubtitles(cs).value) == Content(cs)
  {
    if |cs| > 0 {
      var gs := Sentences(cs);
      ChunkFlatten(cs, CuePunct, [], []);
      assert Flatten(gs) == cs;
      forall g, n | MergeGroup(g, n).Ok?
        ensures Squash(MergeGroup(g, n).value.text) == Content(g)
      {
        MergedContent(g, n);
      }
      MergeAllContent(gs, MergeGroup);
    }
  }

  /** The merged cues are numbered 1, 2, … in order, one per sentence. */
  lemma {:induction false} MergeNumbers(cs: seq<Cue>)
    requires MergeSubtitles(cs).Ok?
    ensures |MergeSubtitles(cs).value| == |Sentences(cs)|
    ensures forall k :: 0 <= k < |Sentences(cs)| ==> MergeSubtitles(cs).value[k].number == k + 1
  {
    if |cs| > 0 {
      MergeAllOk(Sentences(cs), MergeGroup);
    }
  }

  /**
   * Merging a group whose first and last timing lines are well formed takes
   * the start of the first and the end of the last.
   */
  lemma {:induction false} MergedTimingOf(g: seq<Cue>, n: int, a: string, b: string, c: string, d: string)
    requires |g| > 0
    requires IsTimeStr(a) && IsTimeStr(b) && IsTimeStr(c) && IsTimeStr(d)
    requires g[0].timestamp == TimingLine(a, b) && g[|g| - 1].timestamp == TimingLine(c, d)
    ensures MergeGroup(g, n) == Ok(Cue(n, TimingLine(a, d), Join(StrippedTexts(g), " ")))
  {
    ParseTimingLine(a, b);
    ParseTimingLine(c, d);
  }

  /** Every cue lies in the flattening of the groups. */
  lemma {:induction false} FlattenHolds(gs: seq<seq<Cue>>, k: nat, j: nat)
    requires k < |gs| && j < |gs[k]|
    ensures gs[k][j] in Flatten(gs)
    decreases |gs|
  {
    var h := gs[..|gs| - 1];
    FlattenSnoc(h, gs[|gs| - 1]);
    assert gs == h + [gs[|gs| - 1]];
    if k < |h| {
      assert gs[k] == h[k];
      FlattenHolds(h, k, j);
    } else {
      assert Flatten(gs)[|Flatten(h)| + j] == gs[k][j];
    }
  }

  /** The groups `merge_subtitles` forms are non-empty and hold only input cues. */
  lemma {:induction false} SentencesNonEmpty(cs: seq<Cue>)
    ensures forall k :: 0 <= k < |Sentences(cs)| ==> |Sentences(cs)[k]| > 0
    ensures forall k, j :: 0 <= k < |Sentences(cs)| && 0 <= j < |Sentences(cs)[k]| ==> Sentences(cs)[k][j] in cs
  {
    var gs := Sentences(cs);
    SentencesSound(cs);
    forall k, j | 0 <= k < |gs| && 0 <= j < |gs[k]|
      ensures gs[k][j] in cs
    {
      FlattenHolds(gs, k, j);
    }
  }

  /** When every timing line splits on its arrow, merging succeeds. */
  lemma {:induction false} MergeSucceeds(cs: seq<Cue>)
    requires forall k :: 0 <= k < |cs| ==> ParseTimestamp(cs[k].timestamp).Ok?
    ensures MergeSubtitles(cs).Ok?
  {
    if |cs| > 0 {
      var gs := Sentences(cs);
      SentencesNonEmpty(cs);
      forall k | 0 <= k < |gs|
        ensures MergeGroup(gs[k], k + 1).Ok?
      {
        var g := gs[k];
        assert g[0] in cs && g[|g| - 1] in cs;
      }
      MergeAllAllOk(gs, MergeGroup);
    }
  }

  /**
   * Merging fails when the first or the last timing line of some sentence
   * does not split on its arrow; the lines between are never read.
   */
  lemma {:induction false} MergeFails(cs: seq<Cue>, k: nat)
    requires k < |Sentences(cs)| && |Sentences(cs)[k]| > 0
    requires ParseTimestamp(Sentences(cs)[k][0].timestamp).Err?
          || ParseTimestamp(LastOf(Sentences(cs)[k]).timestamp).Err?
    ensures MergeSubtitles(cs).Err?
  {
    var gs := Sentences(cs);
    assert |cs| > 0;
    if MergeAll(gs, MergeGroup).Ok? {
      MergeAllOk(gs, MergeGroup);
    }
  }

  // ---------------------------------------------------------------------------
  // Writing
  // ---------------------------------------------------------------------------

  /** What `write_srt_file` writes for cue `i`: its three lines, then an empty line unless it is the last. */
  function Written(cs: seq<Cue>, i: nat): string
    requires i < |cs|
  {
    IntToString(cs[i].number) + "\n" + cs[i].timestamp + "\n" + cs[i].text + "\n"
    + (if i < |cs| - 1 then "\n" else "")
  }

  /** The loop of `write_srt_file` from cue `i` on. */
  function WriteFrom(cs: seq<Cue>, i: nat): string
    requires i <= |cs|
    decreases |cs| - i
  {
    if i == |cs| then "" else Written(cs, i) + WriteFrom(cs, i + 1)
  }

  /** `write_srt_file`: the cues with their own numbers, in order. */
  function WriteSrtFile(cs: seq<Cue>): string {
    WriteFrom(cs, 0)
  }

  /** The body of a written cue: its number, timing and text lines. */
  function OwnBody(c: Cue): string {
    CueBody(c.number, c)
  }

  function OwnBodies(cs: seq<Cue>): (r: seq<string>)
    ensures |r| == |cs|
    decreases |cs|
  {
    if |cs| == 0 then [] else [OwnBody(cs[0])] + OwnBodies(cs[1..])
  }

  lemma {:induction false} OwnBodiesAt(cs: seq<Cue>, k: nat)
    requires k < |cs|
    ensures OwnBodies(cs)[k] == OwnBody(cs[k])
    decreases k
  {
    if k > 0 {
      OwnBodiesAt(cs[1..], k - 1);
    }
  }

  /** What is written for a cue is its body and a line break, then the separating one. */
  lemma {:induction false} WrittenBody(cs: seq<Cue>, i: nat)
    requires i < |cs|
    ensures Written(cs, i) == OwnBody(cs[i]) + "\n" + (if i < |cs| - 1 then "\n" else "")
  {
    var c := cs[i];
    var num := IntToString(c.number);
    BodyShape(c.number, c);
    assert num + "\n" + c.timestamp + "\n" + c.text == num + "\n" + (c.timestamp + "\n" + c.text);
  }

  /**
   * The written file from cue `i` on is the bodies separated by one empty
   * line, with a single line break after the last body and no empty line
   * after it.
   */
  lemma {:induction false} WriteShapeFrom(cs: seq<Cue>, i: nat)
    requires i < |cs|
    ensures WriteFrom(cs, i) == Join(OwnBodies(cs[i..]), "\n\n") + "\n"
    decreases |cs| - i
  {
    BodiesFrom(cs, i);
    if i == |cs| - 1 {
      WriteLast(cs, i);
    } else {
      WriteShapeFrom(cs, i + 1);
      WriteShapeStep(cs, i);
    }
  }

  /** One more cue in front: its body and a blank line before the rest. */
  lemma {:induction false} WriteShapeStep(cs: seq<Cue>, i: nat)
    requires i < |cs| - 1
    requires WriteFrom(cs, i + 1) == Join(OwnBodies(cs[i + 1..]), "\n\n") + "\n"
    ensures WriteFrom(cs, i) == Join(OwnBodies(cs[i..]), "\n\n") + "\n"
  {
    var b, rest := OwnBody(cs[i]), OwnBodies(cs[i + 1..]);
    BodiesFrom(cs, i);
    WriteStep(cs, i);
    JoinCons(b, rest, "\n\n");
    var j := Join(rest, "\n\n");
    assert b + "\n\n" + (j + "\n") == (b + "\n\n" + j) + "\n";
  }

  lemma {:induction false} WriteStep(cs: seq<Cue>, i: nat)
    requires i < |cs| - 1
    ensures WriteFrom(cs, i) == OwnBody(cs[i]) + "\n\n" + WriteFrom(cs, i + 1)
  {
    var b, w, rest := OwnBody(cs[i]), Written(cs, i), WriteFrom(cs, i + 1);
    WrittenBody(cs, i);
    assert w == b + "\n\n";
  }

  lemma {:induction false} WriteLast(cs: seq<Cue>, i: nat)
    requires i == |cs| - 1
    ensures WriteFrom(cs, i) == OwnBody(cs[i]) + "\n"
  {
    var b, w := OwnBody(cs[i]), Written(cs, i);
    WrittenBody(cs, i);
    assert w == b + "\n";
    assert WriteFrom(cs, i) == w + "";
  }

  lemma {:induction false} BodiesFrom(cs: seq<Cue>, i: nat)
    requires i < |cs|
    ensures OwnBodies(cs[i..]) == [OwnBody(cs[i])] + OwnBodies(cs[i + 1..])
    ensures i == |cs| - 1 ==> OwnBodies(cs[i..]) == [OwnBody(cs[i])]
  {
    var tail := cs[i..];
    assert tail[0] == cs[i] && tail[1..] == cs[i + 1..];
  }

  /** The written file is the bodies separated by one empty line, with no empty line after the last. */
  lemma {:induction false} WriteShape(cs: seq<Cue>)
    requires |cs| > 0
    ensures WriteSrtFile(cs) == Join(OwnBodies(cs), "\n\n") + "\n"
  {
    WriteShapeFrom(cs, 0);
    assert cs[0..] == cs;
  }

  // ---------------------------------------------------------------------------
  // Reading back what was written
  // ---------------------------------------------------------------------------

  /**
   * A cue that survives writing and reading back: a one-line timing and text
   * lines that each start and end with a visible character.
   */
  predicate Clean(c: Cue) {
    VisibleLine(c.timestamp) && !HasChar(c.timestamp, '\n')
    && forall k :: 0 <= k < |Split(c.text, '\n')| ==> VisibleLine(Split(c.text, '\n')[k])
  }

  /** The lines of a clean cue's body. */
  function BodyLines(c: Cue): seq<string> {
    [IntToString(c.number), c.timestamp] + Split(c.text, '\n')
  }

  lemma {:induction false} BodyOfLines(c: Cue)
    ensures OwnBody(c) == Join(BodyLines(c), "\n")
  {
    var lines := Split(c.text, '\n');
    JoinCons(c.timestamp, lines, "\n");
    JoinCons(IntToString(c.number), [c.timestamp] + lines, "\n");
    BodyShape(c.number, c);
    assert BodyLines(c) == [IntToString(c.number)] + ([c.timestamp] + lines);
  }

  /** A clean cue's body holds no blank line and starts and ends visibly. */
  lemma {:induction false} CleanSeparable(c: Cue)
    requires Clean(c)
    ensures SeparableBlock(OwnBody(c))
    ensures forall k :: 0 <= k < |BodyLines(c)| ==> !HasChar(BodyLines(c)[k], '\n')
  {
    var all := BodyLines(c);
    var lines := Split(c.text, '\n');
    NumberVisible(c.number);
    forall k | 0 <= k < |all|
      ensures VisibleLine(all[k]) && !HasChar(all[k], '\n')
    {
      if k >= 2 { assert all[k] == lines[k - 2]; }
    }
    JoinedLinesBlankFree(all);
    BodyOfLines(c);
  }

  /** A clean cue's body reads back as the cue itself. */
  lemma {:induction false} ReadOwnBody(c: Cue)
    requires Clean(c)
    ensures ReadBlock(OwnBody(c)) == Ok(Some(c))
  {
    var body := OwnBody(c);
    var all := BodyLines(c);
    CleanSeparable(c);
    BodyOfLines(c);
    StripOfStripped(body);
    SplitOfJoin(all, '\n');
    assert all[2..] == Split(c.text, '\n');
    ParseIntOfIntToString(c.number);
  }

  lemma {:induction false} StripLineEnd(x: string)
    requires |x| > 0 && !IsSpace(x[0]) && !IsSpace(x[|x| - 1])
    ensures Strip(x + "\n") == x
  {
    var y := x + "\n";
    LStripNoLeadingSpace(y);
    assert y[..|y| - 1] == x;
    RStripNoTrailingSpace(x);
  }

  lemma {:induction false} EmptyFileReads()
    ensures ParseSrtFile("") == Ok([])
  {
    assert Strip("") == "";
    MatcherBlankSep();
    assert FirstMatch("", BlankSepLen) == 0;
    assert SplitBlank("") == [""];
    assert ReadBlock("") == Ok(None);
  }

  /** Stripping the written file leaves the bodies joined by empty lines. */
  lemma {:induction false} WrittenStrip(cs: seq<Cue>, x: string)
    requires |cs| > 0 && forall k :: 0 <= k < |cs| ==> Clean(cs[k])
    requires x == Join(OwnBodies(cs), "\n\n")
    ensures Strip(WriteSrtFile(cs)) == x
    ensures forall k :: 0 <= k < |cs| ==> SeparableBlock(OwnBodies(cs)[k])
  {
    var bodies := OwnBodies(cs);
    forall k | 0 <= k < |cs| ensures SeparableBlock(bodies[k]) {
      CleanSeparable(cs[k]);
      OwnBodiesAt(cs, k);
    }
    WriteShape(cs);
    JoinFirstChar(bodies);
    JoinLastChar(bodies, "\n\n");
    StripLineEnd(x);
  }

  /** Reading a written file gives back exactly the cues written, numbers included. */
  lemma {:induction false} WriteThenRead(cs: seq<Cue>)
    requires forall k :: 0 <= k < |cs| ==> Clean(cs[k])
    ensures ParseSrtFile(WriteSrtFile(cs)) == Ok(cs)
  {
    if |cs| == 0 {
      assert WriteSrtFile(cs) == "";
      EmptyFileReads();
    } else {
      var bodies := OwnBodies(cs);
      var x := Join(bodies, "\n\n");
      WrittenStrip(cs, x);
      SplitBlankOfJoin(bodies);
      forall k | 0 <= k < |cs| ensures ReadBlock(bodies[k]) == Ok(Some(cs[k])) {
        ReadOwnBody(cs[k]);
        OwnBodiesAt(cs, k);
      }
      ReadBlocksExact(bodies, ReadBlock, cs);
    }
  }
}
