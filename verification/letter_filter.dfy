/**
 * The fourth cleaning stage (`spaceSrt_cleaner4.py`): the file is cut at
 * every run of two or more newlines, a block is kept when it has at least
 * three stripped lines and one of its text lines (the third line onward)
 * holds a letter, and the kept blocks are written back, unchanged, joined
 * by a blank line.
 */
module LetterFilter {
  import opened Text
  import opened Blocks
  import opened Srt

  /** Whether `s` holds a character of the class `[^\W\d_]`, i.e. a letter. */
  predicate HasLetter(s: string) {
    exists i :: 0 <= i < |s| && IsLetter(s[i])
  }

  /** `has_meaningful_text`: some line, stripped, holds a letter. */
  function MeaningfulText(lines: seq<string>): bool
    decreases |lines|
  {
    if |lines| == 0 then false
    else if HasLetter(Strip(lines[0])) then true
    else MeaningfulText(lines[1..])
  }

  /** Whether `process_srt_file` keeps a block. */
  predicate KeepBlock(block: string) {
    var lines := BlockLines(block);
    |lines| >= 3 && MeaningfulText(lines[2..])
  }

  /** The blocks `process_srt_file` keeps. */
  function FilterBlocks(blocks: seq<string>): seq<string> {
    Filter(blocks, KeepBlock)
  }

  /** `process_srt_file` on the text of a file. */
  function ProcessSrt(content: string): string {
    Join(FilterBlocks(SplitNewlineRuns(content)), "\n\n")
  }

  // ---------------------------------------------------------------------------
  // Proofs
  // ---------------------------------------------------------------------------

  /** Stripping removes only whitespace, and no whitespace character is a letter. */
  lemma {:induction false} StripKeepsLetters(s: string)
    ensures HasLetter(Strip(s)) <==> HasLetter(s)
  {
    var x, z := StripSplit(s);
    LettersBetweenSpaces(s, x, Strip(s), z);
  }

  lemma {:induction false} LettersBetweenSpaces(s: string, x: string, r: string, z: string)
    requires s == x + r + z && AllSpace(x) && AllSpace(z)
    ensures HasLetter(r) <==> HasLetter(s)
  {
    SpacesNoLetter(x);
    SpacesNoLetter(z);
    HasLetterConcat(x, r, z);
  }

  lemma {:induction false} SpacesNoLetter(t: string)
    requires AllSpace(t)
    ensures !HasLetter(t)
  {
    forall i | 0 <= i < |t|
      ensures !IsLetter(t[i])
    {
      assert IsSpace(t[i]);
    }
  }

  lemma {:induction false} HasLetterConcat(x: string, y: string, z: string)
    ensures HasLetter(x + y + z) <==> HasLetter(x) || HasLetter(y) || HasLetter(z)
  {
    var s := x + y + z;
    if HasLetter(s) {
      var i :| 0 <= i < |s| && IsLetter(s[i]);
      if i < |x| {
        assert x[i] == s[i];
      } else if i < |x| + |y| {
        assert y[i - |x|] == s[i];
      } else {
        assert z[i - |x| - |y|] == s[i];
      }
    }
    if HasLetter(x) {
      var i :| 0 <= i < |x| && IsLetter(x[i]);
      assert s[i] == x[i];
    }
    if HasLetter(y) {
      var i :| 0 <= i < |y| && IsLetter(y[i]);
      assert s[|x| + i] == y[i];
    }
    if HasLetter(z) {
      var i :| 0 <= i < |z| && IsLetter(z[i]);
      assert s[|x| + |y| + i] == z[i];
    }
  }

  /** The text test holds exactly when some text line holds a letter. */
  lemma {:induction false} MeaningfulIff(lines: seq<string>)
    ensures MeaningfulText(lines) <==> exists k :: 0 <= k < |lines| && HasLetter(lines[k])
    decreases |lines|
  {
    if |lines| > 0 {
      StripKeepsLetters(lines[0]);
      MeaningfulIff(lines[1..]);
      LettersFrom(lines, lines[1..], 1);
    }
  }

  /** Some line of `lines[d..]` holds a letter exactly when some line of `lines` from `d` on does. */
  lemma {:induction false} LettersFrom(lines: seq<string>, t: seq<string>, d: nat)
    requires d <= |lines| && t == lines[d..]
    ensures (exists k :: 0 <= k < |t| && HasLetter(t[k])) <==> (exists k :: d <= k < |lines| && HasLetter(lines[k]))
  {
    if exists k :: d <= k < |lines| && HasLetter(lines[k]) {
      var k :| d <= k < |lines| && HasLetter(lines[k]);
      assert t[k - d] == lines[k];
    }
    if exists k :: 0 <= k < |t| && HasLetter(t[k]) {
      var k :| 0 <= k < |t| && HasLetter(t[k]);
      assert lines[k + d] == t[k];
    }
  }

  /**
   * A block is kept exactly when it has at least three stripped lines and a
   * line from the third on holds a letter; a cue whose text is only music
   * notes, digits or punctuation is dropped.
   */
  lemma {:induction false} KeepBlockIff(block: string)
    ensures KeepBlock(block) <==>
      var lines := BlockLines(block);
      |lines| >= 3 && exists k :: 2 <= k < |lines| && HasLetter(lines[k])
  {
    KeepLinesIff(BlockLines(block));
  }

  lemma {:induction false} KeepLinesIff(lines: seq<string>)
    ensures |lines| >= 3 && MeaningfulText(lines[2..]) <==>
      |lines| >= 3 && exists k :: 2 <= k < |lines| && HasLetter(lines[k])
  {
    if |lines| >= 3 {
      MeaningfulIff(lines[2..]);
      LettersFrom(lines, lines[2..], 2);
    }
  }

  /** An empty block has a single empty line, so it is never kept. */
  lemma {:induction false} EmptyBlockDropped()
    ensures !KeepBlock("")
  {
    assert LStrip("") == "";
    assert Strip("") == "";
    assert IndexOfChar("", '\n') == 0;
    assert BlockLines("") == [""];
  }

  /** Kept blocks are never empty. */
  lemma {:induction false} KeptNonEmpty()
    ensures forall b :: KeepBlock(b) ==> |b| > 0
  {
    EmptyBlockDropped();
  }

  /** Filtering keeps the pieces of a `re.split(r'\n{2,}', …)` separated, so they split back. */
  lemma {:induction false} FilterSeparated(parts: seq<string>, keep: string -> bool)
    requires RunSeparated(parts)
    requires forall b :: keep(b) ==> |b| > 0
    ensures RunSeparated(Filter(parts, keep))
    decreases |parts|
  {
    if |parts| > 0 {
      var rest := Filter(parts[1..], keep);
      if |parts| > 1 {
        RunSeparatedTail(parts);
        FilterSeparated(parts[1..], keep);
      }
      if keep(parts[0]) {
        if |rest| == 0 {
          assert [parts[0]] + rest == [parts[0]];
        } else {
          FilterSound(parts[1..], keep);
          assert rest[0] in rest;
          var k :| 0 <= k < |parts[1..]| && parts[1..][k] == rest[0];
          assert parts[k + 1] == rest[0];
          RunSeparatedCons(parts[0], rest);
        }
      }
    }
  }

  /** The kept blocks of a file split back out of the written file. */
  lemma {:induction false} ProcessSrtBlocks(content: string)
    requires |FilterBlocks(SplitNewlineRuns(content))| > 0
    ensures SplitNewlineRuns(ProcessSrt(content)) == FilterBlocks(SplitNewlineRuns(content))
  {
    SplitRunsSeparated(content);
    KeptNonEmpty();
    FilterSeparated(SplitNewlineRuns(content), KeepBlock);
    SplitRunsOfJoin(FilterBlocks(SplitNewlineRuns(content)));
  }

  /** Every block of a non-empty written file passes the test. */
  lemma {:induction false} ProcessSrtKept(content: string)
    requires ProcessSrt(content) != ""
    ensures forall b :: b in SplitNewlineRuns(ProcessSrt(content)) ==> KeepBlock(b)
  {
    var kept := FilterBlocks(SplitNewlineRuns(content));
    if |kept| > 0 {
      ProcessSrtBlocks(content);
      FilterSound(SplitNewlineRuns(content), KeepBlock);
    }
  }

  /** The written file is empty exactly when no block passes. */
  lemma {:induction false} ProcessSrtEmptyIff(content: string)
    ensures ProcessSrt(content) == "" <==> |FilterBlocks(SplitNewlineRuns(content))| == 0
  {
    var kept := FilterBlocks(SplitNewlineRuns(content));
    if |kept| > 0 {
      FilterSound(SplitNewlineRuns(content), KeepBlock);
      KeptNonEmpty();
      assert kept[0] in kept;
      JoinNonEmpty(kept);
    }
  }

  /** Pieces whose first one is non-empty join to a non-empty string. */
  lemma {:induction false} JoinNonEmpty(parts: seq<string>)
    requires |parts| > 0 && |parts[0]| > 0
    ensures |Join(parts, "\n\n")| > 0
  {
    if |parts| > 1 {
      assert Join(parts, "\n\n") == parts[0] + "\n\n" + Join(parts[1..], "\n\n");
    }
  }

  /** The empty file splits into one empty block, which is dropped. */
  lemma {:induction false} ProcessSrtEmpty()
    ensures ProcessSrt("") == ""
  {
    MatcherNewlineRun();
    assert FirstMatch("", NewlineRunLen) == 0;
    assert SplitNewlineRuns("") == [""];
    EmptyBlockDropped();
    assert Filter([""], KeepBlock) == [];
  }

  /** Running the stage on its own output changes nothing. */
  lemma {:induction false} ProcessSrtIdempotent(content: string)
    ensures ProcessSrt(ProcessSrt(content)) == ProcessSrt(content)
  {
    var kept := FilterBlocks(SplitNewlineRuns(content));
    if |kept| == 0 {
      ProcessSrtEmpty();
    } else {
      ProcessSrtBlocks(content);
      FilterSound(SplitNewlineRuns(content), KeepBlock);
      assert forall k :: 0 <= k < |kept| ==> kept[k] in kept;
      FilterAllKept(kept, KeepBlock);
    }
  }
}
