/**
 * The speaker-name cleaner (`clean_speaker_names3.py`): bracketed spans,
 * speaker labels before a colon and `♪` are deleted from each cue's text,
 * whitespace is collapsed, and cues left without text are dropped.
 *
 * Each regular expression of the source is written out as a scanner:
 * `\[.*?\]` (and its `{}`, `()` and `<>` siblings) as `RemoveSpans`, whose
 * `.` does not cross a newline; `^[^:]*:\s*` as `LeadingSpeaker`;
 * `\n[^:\n]*:\s*` as `LineSpeakers`.
 */
module SpeakerNames {
  import opened Wrappers
  import opened Text
  import opened Blocks
  import opened Srt

  // ---------------------------------------------------------------------------
  // Bracketed spans
  // ---------------------------------------------------------------------------

  /**
   * Where the lazy `.*?` followed by `close` stops in `s`: the first `close`,
   * provided no newline comes before it.
   */
  function CloseAt(s: string, close: char): (r: Option<nat>)
    ensures r.Some? ==> r.value < |s| && s[r.value] == close
    ensures r.Some? ==> forall j :: 0 <= j < r.value ==> s[j] != '\n'
    decreases |s|
  {
    if |s| == 0 then None
    else if s[0] == close then Some(0)
    else if s[0] == '\n' then None
    else
      match CloseAt(s[1..], close)
      case None => None
      case Some(k) => Some(k + 1)
  }

  /** `re.sub(open + '.*?' + close, '', t)`: every leftmost shortest one-line span is deleted. */
  function RemoveSpans(t: string, open: char, close: char): (r: string)
    ensures |r| <= |t|
    decreases |t|
  {
    if |t| == 0 then ""
    else if t[0] == open && CloseAt(t[1..], close).Some? then
      RemoveSpans(t[CloseAt(t[1..], close).value + 2..], open, close)
    else [t[0]] + RemoveSpans(t[1..], open, close)
  }

  /** No `open` in `s` is closed by a `close` on the same line. */
  predicate NoSpan(s: string, open: char, close: char) {
    forall i :: 0 <= i < |s| && s[i] == open ==> CloseAt(s[i + 1..], close).None?
  }

  /** The four span removals, square brackets first. */
  function Brackets(t: string): (r: string)
    ensures |r| <= |t|
  {
    RemoveSpans(RemoveSpans(RemoveSpans(RemoveSpans(t, '[', ']'), '{', '}'), '(', ')'), '<', '>')
  }

  // ---------------------------------------------------------------------------
  // Speaker labels
  // ---------------------------------------------------------------------------

  /** `re.sub(r'^[^:]*:\s*', '', t)`: through the first colon and the whitespace after it. */
  function LeadingSpeaker(t: string): (r: string)
    ensures |r| <= |t|
  {
    var k := IndexOfChar(t, ':');
    if k == |t| then t
    else
      var u := t[k + 1..];
      u[SpaceRun(u)..]
  }

  /** Index of the first `:` or newline in `u`, or `|u|`. */
  function LabelEnd(u: string): (k: nat)
    ensures k <= |u|
    ensures k < |u| ==> u[k] == ':' || u[k] == '\n'
    ensures forall j :: 0 <= j < k ==> u[j] != ':' && u[j] != '\n'
    decreases |u|
  {
    if |u| == 0 || u[0] == ':' || u[0] == '\n' then 0 else 1 + LabelEnd(u[1..])
  }

  /**
   * `re.sub(r'\n[^:\n]*:\s*', '\n', t)`: a label after a newline is deleted up
   * to its colon and the whitespace after it, which may include newlines.
   */
  function LineSpeakers(t: string): (r: string)
    decreases |t|
  {
    if |t| == 0 then ""
    else if t[0] == '\n' then
      var u := t[1..];
      var k := LabelEnd(u);
      if k < |u| && u[k] == ':' then
        var v := u[k + 1..];
        "\n" + LineSpeakers(v[SpaceRun(v)..])
      else "\n" + LineSpeakers(u)
    else [t[0]] + LineSpeakers(t[1..])
  }

  // ---------------------------------------------------------------------------
  // The text cleaner
  // ---------------------------------------------------------------------------

  /** `clean_subtitle_text`. */
  function CleanText(t: string): string {
    Strip(CollapseSpace(RemoveChar(LineSpeakers(LeadingSpeaker(Brackets(t))), '♪')))
  }

  /** Every whitespace character is a plain space and no two are adjacent. */
  predicate SingleSpaced(s: string) {
    && (forall i :: 0 <= i < |s| && IsSpace(s[i]) ==> s[i] == ' ')
    && (forall i :: 0 <= i < |s| - 1 ==> !(IsSpace(s[i]) && IsSpace(s[i + 1])))
  }

  // ---------------------------------------------------------------------------
  // Entries and the output file
  // ---------------------------------------------------------------------------

  /**
   * One block of `process_srt_file`: blank blocks and blocks of fewer than
   * three lines are skipped; otherwise the text lines are joined by newlines
   * and cleaned, and the entry survives only if some text is left.
   */
  function CleanEntry(block: string): Option<string> {
    if IsBlank(block) then None
    else
      var lines := BlockLines(block);
      if |lines| < 3 then None
      else
        var cleaned := CleanText(Join(lines[2..], "\n"));
        if IsBlank(cleaned) then None
        else Some(lines[0] + "\n" + lines[1] + "\n" + cleaned)
  }

  /** The surviving entries, in input order. */
  function CleanEntries(blocks: seq<string>): (r: seq<string>)
    ensures |r| <= |blocks|
    decreases |blocks|
  {
    if |blocks| == 0 then []
    else
      var rest := CleanEntries(blocks[1..]);
      match CleanEntry(blocks[0])
      case Some(e) => [e] + rest
      case None => rest
  }

  /** The entries of a file's content, split on blank lines after stripping. */
  function FileEntries(content: string): seq<string> {
    CleanEntries(SplitBlank(Strip(content)))
  }

  /** What `process_srt_file` writes: the entries joined by a blank line, plus one more when any survive. */
  function ProcessFile(content: string): string {
    var es := FileEntries(content);
    Join(es, "\n\n") + (if |es| > 0 then "\n\n" else "")
  }

  /**
   * The output name chosen in `main`: for `*.clean5.srt` and `*.cleansub.srt`,
   * the stem with that marker deleted everywhere plus `.cleaned.srt`; other
   * names are skipped.
   */
  function OutputName(name: string): (r: Option<string>)
    ensures r.Some? <==> EndsWith(name, ".clean5.srt") || EndsWith(name, ".cleansub.srt")
    ensures r.Some? ==> EndsWith(r.value, ".cleaned.srt")
  {
    if EndsWith(name, ".clean5.srt") then
      Some(ReplaceAll(name[..|name| - 4], ".clean5", "") + ".cleaned.srt")
    else if EndsWith(name, ".cleansub.srt") then
      Some(ReplaceAll(name[..|name| - 4], ".cleansub", "") + ".cleaned.srt")
    else None
  }

  // ---------------------------------------------------------------------------
  // Proofs: spans
  // ---------------------------------------------------------------------------

  lemma {:induction false} CloseAtShift(x: char, s: string, c: char)
    requires x != c && x != '\n'
    ensures CloseAt([x] + s, c).None? <==> CloseAt(s, c).None?
  {
    assert ([x] + s)[1..] == s;
  }

  /** Skipping a prefix with neither `c` nor a newline does not change whether `c` closes. */
  lemma {:induction false} CloseAtSkip(t: string, c: char, n: nat)
    requires n <= |t|
    requires forall j :: 0 <= j < n ==> t[j] != c && t[j] != '\n'
    ensures CloseAt(t, c).None? <==> CloseAt(t[n..], c).None?
    decreases n
  {
    if n > 0 {
      assert t == [t[0]] + t[1..];
      CloseAtShift(t[0], t[1..], c);
      assert t[1..][n - 1..] == t[n..];
      CloseAtSkip(t[1..], c, n - 1);
    }
  }

  /** Before the first newline of a text that `c` does not close, there is no `c`. */
  lemma {:induction false} CloseAtNoneHasNo(t: string, c: char, n: nat)
    requires CloseAt(t, c).None?
    requires n <= |t|
    requires forall j :: 0 <= j < n ==> t[j] != '\n'
    ensures forall j :: 0 <= j < n ==> t[j] != c
    decreases n
  {
    if n > 0 {
      assert t[0] != c && t[0] != '\n';
      CloseAtNoneHasNo(t[1..], c, n - 1);
      assert forall j :: 1 <= j < n ==> t[j] == t[1..][j - 1];
    }
  }

  /**
   * Deleting spans never brings a `c1` in front of the first newline: spans hold
   * no newline, so what precedes it afterwards was there before.
   */
  lemma {:induction false} CloseKept(t: string, o: char, c: char, c1: char)
    requires o != c1 && o != '\n' && c != '\n' && c1 != '\n'
    requires CloseAt(t, c1).None?
    ensures CloseAt(RemoveSpans(t, o, c), c1).None?
    decreases |t|
  {
    if |t| == 0 {
    } else if t[0] == o && CloseAt(t[1..], c).Some? {
      var k := CloseAt(t[1..], c).value;
      assert forall j :: 1 <= j < k + 2 ==> t[j] == t[1..][j - 1];
      CloseAtNoneHasNo(t, c1, k + 2);
      CloseAtSkip(t, c1, k + 2);
      CloseKept(t[k + 2..], o, c, c1);
    } else {
      var rest := RemoveSpans(t[1..], o, c);
      if t[0] == '\n' {
        assert ([t[0]] + rest)[0] == '\n';
      } else {
        assert t == [t[0]] + t[1..];
        CloseAtShift(t[0], t[1..], c1);
        CloseKept(t[1..], o, c, c1);
        CloseAtShift(t[0], rest, c1);
      }
    }
  }

  lemma {:induction false} NoSpanCons(x: char, s: string, o: char, c: char)
    ensures NoSpan([x] + s, o, c) <==> (x == o ==> CloseAt(s, c).None?) && NoSpan(s, o, c)
  {
    var t := [x] + s;
    assert t[1..] == s;
    if NoSpan(t, o, c) {
      if x == o {
        assert t[0] == o && t[0 + 1..] == s;
      }
      forall i | 0 <= i < |s| && s[i] == o
        ensures CloseAt(s[i + 1..], c).None?
      {
        assert t[i + 1] == o && t[i + 2..] == s[i + 1..];
      }
    }
    if (x == o ==> CloseAt(s, c).None?) && NoSpan(s, o, c) {
      forall i | 0 <= i < |t| && t[i] == o
        ensures CloseAt(t[i + 1..], c).None?
      {
        if i > 0 {
          assert s[i - 1] == o && t[i + 1..] == s[i..];
        }
      }
    }
  }

  lemma {:induction false} NoSpanSuffix(t: string, n: nat, o: char, c: char)
    requires n <= |t| && NoSpan(t, o, c)
    ensures NoSpan(t[n..], o, c)
  {
    forall i | 0 <= i < |t[n..]| && t[n..][i] == o
      ensures CloseAt(t[n..][i + 1..], c).None?
    {
      assert t[n + i] == o && t[n..][i + 1..] == t[n + i + 1..];
    }
  }

  /** After the pass, no `open` is closed on its own line. */
  lemma {:induction false} RemoveSpansNoSpan(t: string, o: char, c: char)
    requires o != c && o != '\n' && c != '\n'
    ensures NoSpan(RemoveSpans(t, o, c), o, c)
    decreases |t|
  {
    if |t| == 0 {
    } else if t[0] == o && CloseAt(t[1..], c).Some? {
      RemoveSpansNoSpan(t[CloseAt(t[1..], c).value + 2..], o, c);
    } else {
      var rest := RemoveSpans(t[1..], o, c);
      RemoveSpansNoSpan(t[1..], o, c);
      if t[0] == o {
        CloseKept(t[1..], o, c, c);
      }
      NoSpanCons(t[0], rest, o, c);
    }
  }

  /** A pass for one bracket kind leaves spans of another kind absent. */
  lemma {:induction false} NoSpanKept(t: string, o1: char, c1: char, o: char, c: char)
    requires o != c1 && o != '\n' && c != '\n' && c1 != '\n'
    requires NoSpan(t, o1, c1)
    ensures NoSpan(RemoveSpans(t, o, c), o1, c1)
    decreases |t|
  {
    if |t| == 0 {
    } else if t[0] == o && CloseAt(t[1..], c).Some? {
      NoSpanSuffix(t, CloseAt(t[1..], c).value + 2, o1, c1);
      NoSpanKept(t[CloseAt(t[1..], c).value + 2..], o1, c1, o, c);
    } else {
      var rest := RemoveSpans(t[1..], o, c);
      assert t == [t[0]] + t[1..];
      NoSpanCons(t[0], t[1..], o1, c1);
      NoSpanKept(t[1..], o1, c1, o, c);
      if t[0] == o1 {
        CloseKept(t[1..], o, c, c1);
      }
      NoSpanCons(t[0], rest, o1, c1);
    }
  }

  /** A text with no closed span is left as it is. */
  lemma {:induction false} RemoveSpansFixed(t: string, o: char, c: char)
    requires NoSpan(t, o, c)
    ensures RemoveSpans(t, o, c) == t
    decreases |t|
  {
    if |t| > 0 {
      assert t == [t[0]] + t[1..];
      NoSpanCons(t[0], t[1..], o, c);
      RemoveSpansFixed(t[1..], o, c);
    }
  }

  /** Removing the spans of one kind twice is removing them once. */
  lemma {:induction false} RemoveSpansIdempotent(t: string, o: char, c: char)
    requires o != c && o != '\n' && c != '\n'
    ensures RemoveSpans(RemoveSpans(t, o, c), o, c) == RemoveSpans(t, o, c)
  {
    RemoveSpansNoSpan(t, o, c);
    RemoveSpansFixed(RemoveSpans(t, o, c), o, c);
  }

  lemma {:induction false} CloseAtOf(mid: string, rest: string, c: char)
    requires !HasChar(mid, c) && !HasChar(mid, '\n')
    ensures CloseAt(mid + [c] + rest, c) == Some(|mid|)
    decreases |mid|
  {
    var s := mid + [c] + rest;
    if |mid| > 0 {
      assert s[0] == mid[0];
      assert s[1..] == mid[1..] + [c] + rest;
      assert !HasChar(mid[1..], c) && !HasChar(mid[1..], '\n') by {
        assert forall j :: 0 <= j < |mid[1..]| ==> mid[1..][j] == mid[j + 1];
      }
      CloseAtOf(mid[1..], rest, c);
    }
  }

  /**
   * The match is lazy: an opening bracket followed on the same line by a
   * closing one loses everything up to that first closing bracket only.
   */
  lemma {:induction false} RemoveLeadingSpan(mid: string, rest: string, o: char, c: char)
    requires !HasChar(mid, c) && !HasChar(mid, '\n')
    ensures RemoveSpans([o] + mid + [c] + rest, o, c) == RemoveSpans(rest, o, c)
  {
    var t := [o] + mid + [c] + rest;
    assert t[1..] == mid + [c] + rest;
    CloseAtOf(mid, rest, c);
    assert t[|mid| + 2..] == rest;
  }

  /** After the four passes, no bracket of any of the four kinds is closed on its own line. */
  lemma {:induction false} BracketsNoSpan(t: string)
    ensures NoSpan(Brackets(t), '[', ']')
    ensures NoSpan(Brackets(t), '{', '}')
    ensures NoSpan(Brackets(t), '(', ')')
    ensures NoSpan(Brackets(t), '<', '>')
  {
    var t1 := RemoveSpans(t, '[', ']');
    var t2 := RemoveSpans(t1, '{', '}');
    var t3 := RemoveSpans(t2, '(', ')');
    RemoveSpansNoSpan(t, '[', ']');
    NoSpanKept(t1, '[', ']', '{', '}');
    RemoveSpansNoSpan(t1, '{', '}');
    NoSpanKept(t2, '[', ']', '(', ')');
    NoSpanKept(t2, '{', '}', '(', ')');
    RemoveSpansNoSpan(t2, '(', ')');
    NoSpanKept(t3, '[', ']', '<', '>');
    NoSpanKept(t3, '{', '}', '<', '>');
    NoSpanKept(t3, '(', ')', '<', '>');
    RemoveSpansNoSpan(t3, '<', '>');
  }

  // ---------------------------------------------------------------------------
  // Proofs: speaker labels
  // ---------------------------------------------------------------------------

  /**
   * Everything up to and including the first colon, and the whitespace after
   * it, is deleted, even when the label runs over several lines; a text
   * without a colon is untouched.
   */
  lemma {:induction false} LeadingSpeakerOf(name: string, ws: string, rest: string)
    requires !HasChar(name, ':') && AllSpace(ws) && (|rest| == 0 || !IsSpace(rest[0]))
    ensures LeadingSpeaker(name + ":" + ws + rest) == rest
    ensures LeadingSpeaker(name) == name
  {
    var t := name + ":" + ws + rest;
    var k := IndexOfChar(t, ':');
    assert t[|name|] == ':';
    assert k == |name|;
    assert t[k + 1..] == ws + rest;
    SpaceRunOf(ws, rest);
    assert (ws + rest)[|ws|..] == rest;
  }

  lemma {:induction false} LabelEndOf(name: string, tail: string)
    requires !HasChar(name, ':') && !HasChar(name, '\n')
    requires |tail| > 0 && tail[0] == ':'
    ensures LabelEnd(name + tail) == |name|
  {
    var u := name + tail;
    var k := LabelEnd(u);
    assert u[|name|] == ':';
  }

  /** A label that starts a later line is deleted with its colon and the whitespace after it. */
  lemma {:induction false} LineSpeakersOf(name: string, ws: string, rest: string)
    requires !HasChar(name, ':') && !HasChar(name, '\n')
    requires AllSpace(ws) && (|rest| == 0 || !IsSpace(rest[0]))
    ensures LineSpeakers("\n" + name + ":" + ws + rest) == "\n" + LineSpeakers(rest)
  {
    var t := "\n" + name + ":" + ws + rest;
    var u := t[1..];
    assert u == name + (":" + ws + rest);
    LabelEndOf(name, ":" + ws + rest);
    assert u[|name| + 1..] == ws + rest;
    SpaceRunOf(ws, rest);
    assert (ws + rest)[|ws|..] == rest;
  }

  /** Without a colon the line rule changes nothing. */
  lemma {:induction false} LineSpeakersNoColon(t: string)
    requires !HasChar(t, ':')
    ensures LineSpeakers(t) == t
    decreases |t|
  {
    if |t| > 0 {
      var u := t[1..];
      assert !HasChar(u, ':');
      if t[0] == '\n' {
        var k := LabelEnd(u);
        if k < |u| {
          assert u[k] == t[k + 1];
        }
      }
      LineSpeakersNoColon(u);
      assert t == [t[0]] + u;
    }
  }

  // ---------------------------------------------------------------------------
  // Proofs: the cleaned text
  // ---------------------------------------------------------------------------

  /** Collapsing whitespace introduces no non-space character. */
  lemma {:induction false} CollapseKeepsAbsent(s: string, c: char)
    requires !IsSpace(c) && !HasChar(s, c)
    ensures !HasChar(CollapseSpace(s), c)
    decreases |s|
  {
    if |s| > 0 {
      var n := if IsSpace(s[0]) then SpaceRun(s) else 1;
      assert !HasChar(s[n..], c);
      CollapseKeepsAbsent(s[n..], c);
      if IsSpace(s[0]) {
        HasCharAppend(" ", CollapseSpace(s[n..]), c);
      } else {
        assert s[0] != c;
        HasCharAppend([s[0]], CollapseSpace(s[n..]), c);
      }
    }
  }

  /** A middle slice keeps single spacing and absent characters. */
  lemma {:induction false} SliceShape(s: string, x: string, r: string, z: string, c: char)
    requires s == x + r + z && SingleSpaced(s) && !HasChar(s, c)
    ensures SingleSpaced(r) && !HasChar(r, c)
  {
    assert forall i :: 0 <= i < |r| ==> r[i] == s[|x| + i];
    HasCharAppend(x, r, c);
    HasCharAppend(x + r, z, c);
  }

  /**
   * The cleaned text holds no `♪` and no line break, every whitespace
   * character in it is a single space between two non-space characters.
   */
  lemma {:induction false} CleanTextShape(t: string)
    ensures !HasChar(CleanText(t), '♪')
    ensures !HasChar(CleanText(t), '\n')
    ensures SingleSpaced(CleanText(t))
    ensures |CleanText(t)| > 0 ==> !IsSpace(CleanText(t)[0]) && !IsSpace(CleanText(t)[|CleanText(t)| - 1])
  {
    var m := RemoveChar(LineSpeakers(LeadingSpeaker(Brackets(t))), '♪');
    CollapseKeepsAbsent(m, '♪');
    StrippedShape(CollapseSpace(m), '♪');
  }

  lemma {:induction false} StrippedShape(s: string, c: char)
    requires SingleSpaced(s) && !HasChar(s, c)
    ensures SingleSpaced(Strip(s)) && !HasChar(Strip(s), c) && !HasChar(Strip(s), '\n')
  {
    var x, z := StripSplit(s);
    SliceShape(s, x, Strip(s), z, c);
    var r := Strip(s);
    assert forall i :: 0 <= i < |r| ==> r[i] != '\n' by {
      assert forall i :: 0 <= i < |r| && IsSpace(r[i]) ==> r[i] == ' ';
    }
  }

  /** A text with no bracket, colon or `♪` only has its whitespace normalised. */
  lemma {:induction false} CleanPlainText(t: string)
    requires !HasChar(t, '[') && !HasChar(t, '{') && !HasChar(t, '(') && !HasChar(t, '<')
    requires !HasChar(t, ':') && !HasChar(t, '♪')
    ensures CleanText(t) == Strip(CollapseSpace(t))
  {
    RemoveSpansFixed(t, '[', ']');
    RemoveSpansFixed(t, '{', '}');
    RemoveSpansFixed(t, '(', ')');
    RemoveSpansFixed(t, '<', '>');
    LeadingSpeakerOf(t, "", "");
    LineSpeakersNoColon(t);
    RemoveCharAbsent(t, '♪');
  }

  // ---------------------------------------------------------------------------
  // Proofs: entries and the file
  // ---------------------------------------------------------------------------

  /** The cleaned text is stripped, so it is blank only when empty. */
  lemma {:induction false} CleanTextBlank(t: string)
    ensures IsBlank(CleanText(t)) <==> CleanText(t) == ""
  {
    StripIdempotent(CollapseSpace(RemoveChar(LineSpeakers(LeadingSpeaker(Brackets(t))), '♪')));
  }

  /**
   * An entry survives exactly when its block has at least three lines and
   * cleaning leaves some text.
   */
  lemma {:induction false} CleanEntryKept(block: string)
    ensures CleanEntry(block).Some? <==>
      |BlockLines(block)| >= 3 && CleanText(Join(BlockLines(block)[2..], "\n")) != ""
  {
    if IsBlank(block) {
      BlankBlockShort(block);
    } else if |BlockLines(block)| >= 3 {
      CleanTextBlank(Join(BlockLines(block)[2..], "\n"));
    }
  }

  lemma {:induction false} ThreeLines(a: string, b: string, c: string)
    requires !HasChar(a, '\n') && !HasChar(b, '\n') && !HasChar(c, '\n')
    ensures Split(a + "\n" + b + "\n" + c, '\n') == [a, b, c]
  {
    var parts := [a, b, c];
    assert parts[1..] == [b, c] && parts[1..][1..] == [c];
    assert Join([b, c], "\n") == b + "\n" + c by {
      assert [b, c][1..] == [c];
    }
    assert Join(parts, "\n") == a + "\n" + (b + "\n" + c);
    assert a + "\n" + b + "\n" + c == a + "\n" + (b + "\n" + c);
    assert forall k :: 0 <= k < |parts| ==> !HasChar(parts[k], '\n');
    SplitOfJoin(parts, '\n');
  }

  /**
   * A surviving entry reads back as the block's own number and timing lines
   * followed by the one cleaned line.
   */
  lemma {:induction false} CleanEntryLines(block: string)
    requires CleanEntry(block).Some?
    ensures Split(CleanEntry(block).value, '\n') ==
      [BlockLines(block)[0], BlockLines(block)[1], CleanText(Join(BlockLines(block)[2..], "\n"))]
  {
    var lines := BlockLines(block);
    CleanTextShape(Join(lines[2..], "\n"));
    ThreeLines(lines[0], lines[1], CleanText(Join(lines[2..], "\n")));
  }

  /** The entries of consecutive block lists are concatenated: order is kept. */
  lemma {:induction false} CleanEntriesAppend(a: seq<string>, b: seq<string>)
    ensures CleanEntries(a + b) == CleanEntries(a) + CleanEntries(b)
    decreases |a|
  {
    if |a| == 0 {
      assert a + b == b;
    } else {
      assert (a + b)[0] == a[0];
      assert (a + b)[1..] == a[1..] + b;
      CleanEntriesAppend(a[1..], b);
    }
  }

  /** A single block contributes its entry when it survives, and nothing otherwise. */
  lemma {:induction false} CleanEntriesOne(block: string)
    ensures CleanEntries([block]) == if CleanEntry(block).Some? then [CleanEntry(block).value] else []
  {
    assert [block][1..] == [];
  }

  /**
   * The file is every surviving entry followed by one blank line; so it ends
   * with a blank line exactly when some entry survives, and is empty otherwise.
   */
  lemma {:induction false} ProcessFileShape(content: string)
    ensures ProcessFile(content) == Concat(Terminated(FileEntries(content)))
    ensures EndsWith(ProcessFile(content), "\n\n") <==> |FileEntries(content)| > 0
  {
    var es := FileEntries(content);
    if |es| > 0 {
      TerminatedConcat(es);
    }
  }

  /** `X.clean5.srt` is written as `X.cleaned.srt`. */
  lemma {:induction false} OutputNameClean5(base: string)
    requires !Contains(base, ".clean5")
    ensures OutputName(base + ".clean5.srt") == Some(base + ".cleaned.srt")
  {
    var a := base + ".clean5.srt";
    assert a[..|a| - 4] == base + ".clean5";
    assert a[|a| - 11..] == ".clean5.srt";
    UniqueHeadNoBorder(".clean5");
    ReplaceTail(base, ".clean5", "");
    assert base + "" == base;
  }

  /** `X.cleansub.srt` is written as `X.cleaned.srt` too. */
  lemma {:induction false} OutputNameCleansub(base: string)
    requires !Contains(base, ".cleansub")
    ensures OutputName(base + ".cleansub.srt") == Some(base + ".cleaned.srt")
  {
    var b := base + ".cleansub.srt";
    assert b[..|b| - 4] == base + ".cleansub";
    assert b[|b| - 11..] == "leansub.srt";
    assert b[|b| - 13..] == ".cleansub.srt";
    UniqueHeadNoBorder(".cleansub");
    ReplaceTail(base, ".cleansub", "");
    assert base + "" == base;
  }
}
