/**
 * The first cleaning stage (`spaceSrt_cleaner.py`): every whitespace-only
 * line of the file is either kept empty, when it separates two cues (the
 * next line is a cue number), or replaced by the note sign `♪`.
 */
module BlankLines {
  import opened Text

  /** The mark written in place of a blank line that does not separate cues. */
  const Note: string := "♪"

  /** What one line becomes, given the line after it (`""` past the last line). */
  function MarkLine(line: string, next: string): (r: string)
    ensures !IsBlank(line) ==> r == line
    ensures IsBlank(line) && IsDigits(Strip(next)) ==> r == ""
    ensures IsBlank(line) && !IsDigits(Strip(next)) ==> r == Note
  {
    if IsBlank(line) then (if IsDigits(Strip(next)) then "" else Note) else line
  }

  /** The line after position `i`, or `""` when `i` is the last line. */
  function Successor(lines: seq<string>, i: nat): string
    requires i < |lines|
  {
    if i + 1 < |lines| then lines[i + 1] else ""
  }

  /** The marking loop over the `\n`-separated lines. */
  function MarkLines(lines: seq<string>): (r: seq<string>)
    ensures |r| == |lines|
    ensures forall i :: 0 <= i < |lines| ==> r[i] == MarkLine(lines[i], Successor(lines, i))
  {
    seq(|lines|, i requires 0 <= i < |lines| => MarkLine(lines[i], Successor(lines, i)))
  }

  /** `clean_srt_content`. */
  function CleanSrtContent(content: string): string {
    Join(MarkLines(Split(content, '\n')), "\n")
  }

  lemma NoteNotBlank()
    ensures !IsBlank(Note) && !HasChar(Note, '\n')
  {
    assert Strip(Note) == Note;
  }

  /** A marked line holds no newline when the original did not. */
  lemma {:induction false} MarkedLinesSingle(lines: seq<string>)
    requires forall k :: 0 <= k < |lines| ==> !HasChar(lines[k], '\n')
    ensures forall k :: 0 <= k < |lines| ==> !HasChar(MarkLines(lines)[k], '\n')
  {
    NoteNotBlank();
  }

  /** The cleaned text splits back into exactly the marked lines. */
  lemma {:induction false} CleanedLines(content: string)
    ensures Split(CleanSrtContent(content), '\n') == MarkLines(Split(content, '\n'))
  {
    var lines := Split(content, '\n');
    MarkedLinesSingle(lines);
    SplitOfJoin(MarkLines(lines), '\n');
  }

  /**
   * Marking keeps the number of lines, copies every non-blank line, turns a
   * blank line before a cue number into `""` and every other blank line
   * (the last one included) into `♪`.
   */
  lemma {:induction false} MarkLinesSpec(lines: seq<string>)
    requires |lines| >= 1
    ensures var out := MarkLines(lines);
      && |out| == |lines|
      && (forall i :: 0 <= i < |lines| && !IsBlank(lines[i]) ==> out[i] == lines[i])
      && (forall i :: 0 <= i < |lines| - 1 && IsBlank(lines[i]) ==>
            out[i] == (if IsDigits(Strip(lines[i + 1])) then "" else Note))
      && (IsBlank(lines[|lines| - 1]) ==> out[|lines| - 1] == Note)
  {
    var out := MarkLines(lines);
    forall i | 0 <= i < |lines| - 1 && IsBlank(lines[i])
      ensures out[i] == (if IsDigits(Strip(lines[i + 1])) then "" else Note)
    {
      assert Successor(lines, i) == lines[i + 1];
    }
    LastLine(lines);
  }

  lemma {:induction false} LastLine(lines: seq<string>)
    requires |lines| >= 1
    ensures IsBlank(lines[|lines| - 1]) ==> MarkLines(lines)[|lines| - 1] == Note
  {
    EmptyNotDigits();
    assert Successor(lines, |lines| - 1) == "";
  }

  lemma EmptyNotDigits()
    ensures !IsDigits(Strip(""))
  {
  }

  /** Marking twice marks nothing new. */
  lemma {:induction false} MarkLinesIdempotent(lines: seq<string>)
    ensures MarkLines(MarkLines(lines)) == MarkLines(lines)
  {
    var once := MarkLines(lines);
    NoteNotBlank();
    forall i | 0 <= i < |lines|
      ensures MarkLine(once[i], Successor(once, i)) == once[i]
    {
      if IsBlank(lines[i]) && IsDigits(Strip(Successor(lines, i))) {
        var next := lines[i + 1];
        assert !IsBlank(next);
        assert once[i + 1] == next;
        assert Successor(once, i) == next;
      }
    }
  }

  /** `clean_srt_content` is idempotent. */
  lemma {:induction false} CleanIdempotent(content: string)
    ensures CleanSrtContent(CleanSrtContent(content)) == CleanSrtContent(content)
  {
    CleanedLines(content);
    MarkLinesIdempotent(Split(content, '\n'));
  }
}
