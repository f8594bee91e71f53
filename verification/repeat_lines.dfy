/**
 * The third cleaning stage (`spaceSrt_cleaner3.py`): a line of a cue is
 * dropped when, stripped, it equals some stripped line of the previous cue.
 * The previous cue is taken as it was read, not as it was cleaned.
 *
 * Cues come from the `srt` library's parser, which is not part of this
 * model; a cue is its index, its two times and its text content.
 */
module RepeatLines {
  import opened Text
  import opened Srt

  /** The cue text as lines: `content.strip().split('\n')`. */
  function ContentLines(content: string): (r: seq<string>)
    ensures |r| >= 1
  {
    Split(Strip(content), '\n')
  }

  /** Whether `line`, stripped, equals a stripped line of `prev`. */
  predicate Seen(line: string, prev: seq<string>) {
    exists j :: 0 <= j < |prev| && Strip(prev[j]) == Strip(line)
  }

  /** The lines of `cur` not seen in `prev`, in order. */
  function Unseen(cur: seq<string>, prev: seq<string>): (r: seq<string>)
    ensures |r| <= |cur|
    decreases |cur|
  {
    if |cur| == 0 then []
    else
      var rest := Unseen(cur[1..], prev);
      if Seen(cur[0], prev) then rest else [cur[0]] + rest
  }

  /** The new content of one cue given the previous cue's lines. */
  function CleanContent(content: string, prev: seq<string>): string {
    var kept := Unseen(ContentLines(content), prev);
    if |kept| > 0 then Join(kept, "\n") else ""
  }

  /**
   * The cleaned content is empty when every line was dropped, and otherwise
   * splits back into exactly the kept lines.
   */
  lemma {:induction false} CleanContentSpec(content: string, prev: seq<string>)
    ensures |Unseen(ContentLines(content), prev)| == 0 ==> CleanContent(content, prev) == ""
    ensures |Unseen(ContentLines(content), prev)| > 0 ==>
      Split(CleanContent(content, prev), '\n') == Unseen(ContentLines(content), prev)
  {
    var kept := Unseen(ContentLines(content), prev);
    if |kept| > 0 {
      UnseenSingle(ContentLines(content), prev);
      SplitOfJoin(kept, '\n');
    }
  }

  /** One cue with its content cleaned against `prev`; index and times untouched. */
  function Cleaned(s: Subtitle, prev: seq<string>): Subtitle {
    s.(content := CleanContent(s.content, prev))
  }

  /**
   * `clean_srt_blocks`: the count and order of cues are unchanged and only
   * the content is rewritten, cue `i` being cleaned against the lines of
   * cue `i - 1` as read (against nothing for the first cue).
   */
  method CleanBlocks(subs: seq<Subtitle>) returns (cleaned: seq<Subtitle>)
    ensures |cleaned| == |subs|
    ensures forall i :: 0 <= i < |subs| ==> cleaned[i] == Cleaned(subs[i], PrevLines(subs, i))
  {
    cleaned := [];
    var prev: seq<string> := [];
    for i := 0 to |subs|
      invariant |cleaned| == i
      invariant forall j :: 0 <= j < i ==> CleanedAt(subs, cleaned, j)
      invariant i < |subs| ==> prev == PrevLines(subs, i)
    {
      var c := Cleaned(subs[i], prev);
      CleanedAppend(subs, cleaned, c, i);
      cleaned := cleaned + [c];
      prev := ContentLines(subs[i].content);
    }
    forall i | 0 <= i < |subs|
      ensures cleaned[i] == Cleaned(subs[i], PrevLines(subs, i))
    {
      assert CleanedAt(subs, cleaned, i);
    }
  }

  /** Position `j` of `cleaned` holds cue `j` cleaned against its predecessor's lines. */
  predicate CleanedAt(subs: seq<Subtitle>, cleaned: seq<Subtitle>, j: nat)
    requires j < |subs| && j < |cleaned|
  {
    cleaned[j] == Cleaned(subs[j], PrevLines(subs, j))
  }

  lemma {:induction false} CleanedAppend(subs: seq<Subtitle>, cleaned: seq<Subtitle>, c: Subtitle, i: nat)
    requires i < |subs| && |cleaned| == i
    requires forall j :: 0 <= j < i ==> CleanedAt(subs, cleaned, j)
    requires c == Cleaned(subs[i], PrevLines(subs, i))
    ensures forall j :: 0 <= j <= i ==> CleanedAt(subs, cleaned + [c], j)
  {
    forall j | 0 <= j <= i
      ensures CleanedAt(subs, cleaned + [c], j)
    {
      if j < i {
        assert CleanedAt(subs, cleaned, j);
        assert (cleaned + [c])[j] == cleaned[j];
      }
    }
  }

  /** The lines cue `i` is compared against: those of cue `i - 1` as read, none for the first cue. */
  function PrevLines(subs: seq<Subtitle>, i: nat): seq<string>
    requires i < |subs|
  {
    if i == 0 then [] else ContentLines(subs[i - 1].content)
  }

  // ---------------------------------------------------------------------------
  // Proofs
  // ---------------------------------------------------------------------------

  /** Kept lines are lines of the cue, so they hold no newline. */
  lemma {:induction false} UnseenSingle(cur: seq<string>, prev: seq<string>)
    requires forall k :: 0 <= k < |cur| ==> !HasChar(cur[k], '\n')
    ensures forall k :: 0 <= k < |Unseen(cur, prev)| ==> !HasChar(Unseen(cur, prev)[k], '\n')
    decreases |cur|
  {
    if |cur| > 0 {
      UnseenSingle(cur[1..], prev);
    }
  }

  /** Filtering distributes over concatenation, so kept lines keep their relative order. */
  lemma {:induction false} UnseenAppend(a: seq<string>, b: seq<string>, prev: seq<string>)
    ensures Unseen(a + b, prev) == Unseen(a, prev) + Unseen(b, prev)
    decreases |a|
  {
    if |a| == 0 {
      assert a + b == b;
    } else {
      assert (a + b)[1..] == a[1..] + b;
      UnseenAppend(a[1..], b, prev);
    }
  }

  /** A single line is kept exactly when its stripped form matches no stripped line of `prev`. */
  lemma {:induction false} UnseenOne(line: string, prev: seq<string>)
    ensures Unseen([line], prev) == if Seen(line, prev) then [] else [line]
  {
    assert [line][1..] == [];
  }

  /** Against no previous lines every line is kept. */
  lemma {:induction false} UnseenNothing(cur: seq<string>)
    ensures Unseen(cur, []) == cur
    decreases |cur|
  {
    if |cur| > 0 {
      UnseenNothing(cur[1..]);
      assert cur == [cur[0]] + cur[1..];
    }
  }

  /** The first cue loses no lines: its content is only stripped. */
  lemma {:induction false} FirstCueStripped(s: Subtitle)
    ensures Cleaned(s, []) == s.(content := Strip(s.content))
  {
    UnseenNothing(ContentLines(s.content));
  }
}
