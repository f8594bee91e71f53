/**
 * What `process_file` and `main` of the two last merging stages do with the
 * `*.merge2.srt` files they find.  Both stages get `pathlib.Path` objects
 * from `glob` and derive the output name with `replace(pat, rep)`, as one
 * would on a `str`; `Path.replace` takes a single target, so the call raises
 * `TypeError` before any file is written.  The name operation is therefore a
 * parameter: `PathReplace` is the code as written, `StrReplace` the string
 * replacement the stages evidently mean, which the rest of the model assumes.
 * Reading and writing are left to the caller: a file is its name and text.
 */
module StageFiles {
  import opened Wrappers
  import opened Text
  import WordPacker
  import PunctMerger

  const Merge2Srt: string := ".merge2.srt"
  const Merge3Srt: string := ".merge3.srt"
  const Merge4Srt: string := ".merge4.srt"

  /** A file the stage finds: its name and its decoded text. */
  datatype File = File(name: string, content: string)

  /** What one call of `process_file` does. */
  datatype Effect =
    | Skipped                                  // nothing parsed: `process_file` returns `False`
    | Raised(error: string)                    // an exception leaves `process_file`
    | Written(output: string, text: string, removed: bool)  // `text` is written to `output`; `removed` when the input is deleted

  /** How a stage turns the input name into the output name: the call as written, or the one meant. */
  datatype Renamer = PathMethod | StrMethod

  function Rename(how: Renamer, name: string, pat: string, rep: string): Result<string>
    requires |pat| > 0
  {
    match how
    case PathMethod => PathReplace(name, pat, rep)
    case StrMethod => StrReplace(name, pat, rep)
  }

  /** `Path.replace(pat, rep)`: `Path.replace` takes one target, so two arguments raise `TypeError`. */
  function PathReplace(name: string, pat: string, rep: string): (r: Result<string>)
    ensures r.Err? && r.error == "TypeError"
  {
    Err("TypeError")
  }

  /** `str.replace(pat, rep)` for the non-empty patterns the stages use; it never fails. */
  function StrReplace(name: string, pat: string, rep: string): (r: Result<string>)
    requires |pat| > 0
    ensures r.Ok?
    ensures !Contains(name, pat) ==> r == Ok(name)
  {
    if Contains(name, pat) then Ok(ReplaceAll(name, pat, rep))
    else
      ReplaceAllAbsent(name, pat, rep);
      Ok(ReplaceAll(name, pat, rep))
  }

  /** Two occurrences of `.merge2.srt` never overlap. */
  lemma Merge2SrtNoBorder()
    ensures NoBorder(Merge2Srt)
  {
    forall m | 0 < m < |Merge2Srt| ensures Merge2Srt[m..] != Merge2Srt[..|Merge2Srt| - m] {
      assert Merge2Srt[m..][|Merge2Srt| - m - 1] == 't';
      assert Merge2Srt[..|Merge2Srt| - m][|Merge2Srt| - m - 1] != 't';
    }
  }

  /** The string replacement turns `<base>.merge2.srt` into `<base><ext>`, a name other than the input's. */
  lemma OutputName(base: string, ext: string)
    requires !Contains(base, Merge2Srt) && ext != Merge2Srt
    ensures Rename(StrMethod, base + Merge2Srt, Merge2Srt, ext) == Ok(base + ext)
    ensures base + ext != base + Merge2Srt
  {
    Merge2SrtNoBorder();
    ReplaceTail(base, Merge2Srt, ext);
    assert (base + ext)[|base|..] == ext;
    assert (base + Merge2Srt)[|base|..] == Merge2Srt;
  }

  /** The file written under the name `out` yields, or the exception raised while naming it. */
  function Emit(out: Result<string>, text: string, removed: bool): (r: Effect)
    ensures r.Raised? <==> out.Err?
    ensures r.Written? ==> r.output == out.value && r.text == text && r.removed == removed
  {
    match out
    case Err(e) => Raised(e)
    case Ok(o) => Written(o, text, removed)
  }

  /** merge_Sub3's `process_file`: parse, pack by words, name the output, write it and delete the input. */
  function ProcessFile3(f: File, rename: Renamer): (r: Effect)
    ensures r.Written? ==> r.removed
    ensures r.Skipped? <==> |WordPacker.ParseSrt(f.content)| == 0
  {
    var subs := WordPacker.ParseSrt(f.content);
    if |subs| == 0 then Skipped else Finish3(WordPacker.MergeSubtitles(subs), f.name, rename)
  }

  /** The rest of merge_Sub3's `process_file` once the cues are merged. */
  function Finish3(merged: Result<seq<WordPacker.Cue>>, name: string, rename: Renamer): (r: Effect)
    ensures !r.Skipped?
    ensures r.Written? ==> r.removed
  {
    match merged
    case Err(e) => Raised(e)
    case Ok(ms) => Emit(Rename(rename, name, Merge2Srt, Merge3Srt), WordPacker.WriteSrt(ms), true)
  }

  /** As written, naming the output raises, whatever the merge gave. */
  lemma Finish3AsWritten(merged: Result<seq<WordPacker.Cue>>, name: string)
    ensures Finish3(merged, name, PathMethod).Raised?
  {
  }

  /** With the string replacement, merged cues are written to `<base>.merge3.srt` and the input deleted. */
  lemma Finish3Fixed(merged: Result<seq<WordPacker.Cue>>, base: string)
    requires !Contains(base, Merge2Srt)
    ensures merged.Err? ==> Finish3(merged, base + Merge2Srt, StrMethod) == Raised(merged.error)
    ensures merged.Ok? ==> Finish3(merged, base + Merge2Srt, StrMethod) ==
                           Written(base + Merge3Srt, WordPacker.WriteSrt(merged.value), true)
  {
    OutputName(base, Merge3Srt);
  }

  /** The first effects up to and including the first exception: a run of `main` without a `try`. */
  function UntilRaised(es: seq<Effect>): (r: seq<Effect>)
    ensures |r| <= |es| && r == es[..|r|]
    ensures forall k :: 0 <= k < |r| - 1 ==> !r[k].Raised?
    ensures |r| < |es| ==> |r| > 0 && r[|r| - 1].Raised?
    decreases |es|
  {
    if |es| == 0 then []
    else if es[0].Raised? then [es[0]]
    else
      var rest := UntilRaised(es[1..]);
      assert [es[0]] + es[1..][..|rest|] == es[..|rest| + 1];
      [es[0]] + rest
  }

  /** The run stops exactly at the first exception. */
  lemma {:induction false} UntilRaisedAt(es: seq<Effect>, i: nat)
    requires i < |es| && es[i].Raised?
    requires forall k :: 0 <= k < i ==> !es[k].Raised?
    ensures UntilRaised(es) == es[..i + 1]
    decreases i
  {
    if i > 0 {
      UntilRaisedAt(es[1..], i - 1);
      assert [es[0]] + es[1..][..i] == es[..i + 1];
    }
  }

  /** A run without exceptions reaches every file. */
  lemma {:induction false} UntilRaisedNone(es: seq<Effect>)
    requires forall k :: 0 <= k < |es| ==> !es[k].Raised?
    ensures UntilRaised(es) == es
    decreases |es|
  {
    if |es| > 0 {
      UntilRaisedNone(es[1..]);
      assert [es[0]] + es[1..] == es;
    }
  }

  /** What `process_file` of merge_Sub3 would do to each file, were every file reached. */
  function Effects3(files: seq<File>, rename: Renamer): (r: seq<Effect>)
    ensures |r| == |files|
    ensures forall k :: 0 <= k < |r| ==> r[k] == ProcessFile3(files[k], rename)
  {
    seq(|files|, k requires 0 <= k < |files| => ProcessFile3(files[k], rename))
  }

  /** merge_Sub3's `main`: nothing catches an exception, so the first one ends the run. */
  function Main3(files: seq<File>, rename: Renamer): seq<Effect> {
    UntilRaised(Effects3(files, rename))
  }

  /** As written, a file with cues always raises: merge_Sub3 never writes an output nor deletes an input. */
  lemma ProcessFile3AsWritten(f: File)
    ensures ProcessFile3(f, PathMethod).Raised? <==> |WordPacker.ParseSrt(f.content)| > 0
  {
    Finish3AsWritten(WordPacker.MergeSubtitles(WordPacker.ParseSrt(f.content)), f.name);
  }

  /** As written, the files without cues before `i` are skipped. */
  lemma SkippedBefore(files: seq<File>, i: nat)
    requires i <= |files|
    requires forall k :: 0 <= k < i ==> |WordPacker.ParseSrt(files[k].content)| == 0
    ensures forall k :: 0 <= k < i ==> Effects3(files, PathMethod)[k].Skipped?
  {
    var es := Effects3(files, PathMethod);
    forall k | 0 <= k < i ensures es[k].Skipped? {
      assert es[k] == ProcessFile3(files[k], PathMethod);
    }
  }

  /** A run whose first exception follows skipped files only stops there, having written nothing. */
  lemma UntilRaisedStops(es: seq<Effect>, i: nat)
    requires i < |es| && es[i].Raised?
    requires forall k :: 0 <= k < i ==> es[k].Skipped?
    ensures var r := UntilRaised(es); |r| == i + 1 && r[i].Raised? && forall k :: 0 <= k < |r| ==> !r[k].Written?
  {
    UntilRaisedAt(es, i);
  }

  /** As written, `main` stops at the first file with cues, after skipping the ones before it, and writes nothing. */
  lemma Main3AsWritten(files: seq<File>, i: nat)
    requires i < |files| && |WordPacker.ParseSrt(files[i].content)| > 0
    requires forall k :: 0 <= k < i ==> |WordPacker.ParseSrt(files[k].content)| == 0
    ensures var r := Main3(files, PathMethod);
            |r| == i + 1 && r[i].Raised? && forall k :: 0 <= k < |r| ==> !r[k].Written?
  {
    SkippedBefore(files, i);
    ProcessFile3AsWritten(files[i]);
    UntilRaisedStops(Effects3(files, PathMethod), i);
  }

  /** With the string replacement a file with cues that merge is written to `<base>.merge3.srt` and the input deleted. */
  lemma ProcessFile3Fixed(base: string, content: string)
    requires !Contains(base, Merge2Srt)
    ensures var subs := WordPacker.ParseSrt(content);
            var r := ProcessFile3(File(base + Merge2Srt, content), StrMethod);
            (r.Written? <==> |subs| > 0 && WordPacker.MergeSubtitles(subs).Ok?) &&
            (r.Written? ==> r.output == base + Merge3Srt && r.output != base + Merge2Srt &&
                            r.text == WordPacker.WriteSrt(WordPacker.MergeSubtitles(subs).value)) &&
            (r.Raised? ==> r.error == WordPacker.MergeSubtitles(subs).error)
  {
    OutputName(base, Merge3Srt);
    Finish3Fixed(WordPacker.MergeSubtitles(WordPacker.ParseSrt(content)), base);
  }

  /** With the string replacement and cues that always merge, `main` reaches every file and writes each one that has cues. */
  lemma Main3Fixed(files: seq<File>, bases: seq<string>)
    requires |bases| == |files|
    requires forall k :: 0 <= k < |files| ==> files[k].name == bases[k] + Merge2Srt && !Contains(bases[k], Merge2Srt)
    requires forall k :: 0 <= k < |files| ==> WordPacker.MergeSubtitles(WordPacker.ParseSrt(files[k].content)).Ok?
    ensures var r := Main3(files, StrMethod);
            |r| == |files| &&
            forall k :: 0 <= k < |r| ==> (r[k].Written? <==> |WordPacker.ParseSrt(files[k].content)| > 0) &&
                                         (r[k].Written? ==> r[k].output == bases[k] + Merge3Srt)
  {
    var es := Effects3(files, StrMethod);
    forall k | 0 <= k < |es|
      ensures !es[k].Raised? && (es[k].Written? <==> |WordPacker.ParseSrt(files[k].content)| > 0)
      ensures es[k].Written? ==> es[k].output == bases[k] + Merge3Srt
    {
      ProcessFile3Fixed(bases[k], files[k].content);
    }
    UntilRaisedNone(es);
  }

  /** merge_Sub5's `process_file`: parse, merge by sentences, name the output and write it; the input stays. */
  function ProcessFile5(f: File, rename: Renamer): (r: Effect)
    ensures r.Written? ==> !r.removed
    ensures !r.Skipped?
  {
    match PunctMerger.ParseSrtFile(f.content)
    case Err(e) => Raised(e)
    case Ok(subs) => Finish5(PunctMerger.MergeSubtitles(subs), f.name, rename)
  }

  /** The rest of merge_Sub5's `process_file` once the cues are merged. */
  function Finish5(merged: Result<seq<WordPacker.Cue>>, name: string, rename: Renamer): (r: Effect)
    ensures !r.Skipped?
    ensures r.Written? ==> !r.removed
  {
    match merged
    case Err(e) => Raised(e)
    case Ok(ms) => Emit(Rename(rename, name, Merge2Srt, Merge4Srt), PunctMerger.WriteSrtFile(ms), false)
  }

  /** As written, naming the output raises, whatever the merge gave. */
  lemma Finish5AsWritten(merged: Result<seq<WordPacker.Cue>>, name: string)
    ensures Finish5(merged, name, PathMethod).Raised?
  {
  }

  /** With the string replacement, merged cues are written to `<base>.merge4.srt`. */
  lemma Finish5Fixed(merged: Result<seq<WordPacker.Cue>>, base: string)
    requires !Contains(base, Merge2Srt)
    ensures merged.Err? ==> Finish5(merged, base + Merge2Srt, StrMethod) == Raised(merged.error)
    ensures merged.Ok? ==> Finish5(merged, base + Merge2Srt, StrMethod) ==
                           Written(base + Merge4Srt, PunctMerger.WriteSrtFile(merged.value), false)
  {
    OutputName(base, Merge4Srt);
  }

  /** merge_Sub5's `main`: each file's exception is caught and reported, and the loop goes on. */
  function Main5(files: seq<File>, rename: Renamer): (r: seq<Effect>)
    ensures |r| == |files|
    ensures forall k :: 0 <= k < |r| ==> r[k] == ProcessFile5(files[k], rename)
  {
    seq(|files|, k requires 0 <= k < |files| => ProcessFile5(files[k], rename))
  }

  /** As written, every file of merge_Sub5 ends in an error and none is written. */
  lemma Main5AsWritten(files: seq<File>)
    ensures var r := Main5(files, PathMethod);
            |r| == |files| && forall k :: 0 <= k < |r| ==> r[k].Raised?
  {
    var r := Main5(files, PathMethod);
    forall k | 0 <= k < |r| ensures r[k].Raised? {
      var p := PunctMerger.ParseSrtFile(files[k].content);
      if p.Ok? {
        Finish5AsWritten(PunctMerger.MergeSubtitles(p.value), files[k].name);
      }
    }
  }

  /** With the string replacement a file that parses and merges is written to `<base>.merge4.srt`, and the input is kept. */
  lemma ProcessFile5Fixed(base: string, content: string)
    requires !Contains(base, Merge2Srt)
    ensures var r := ProcessFile5(File(base + Merge2Srt, content), StrMethod);
            var p := PunctMerger.ParseSrtFile(content);
            (r.Written? <==> p.Ok? && PunctMerger.MergeSubtitles(p.value).Ok?) &&
            (r.Written? ==> r.output == base + Merge4Srt && !r.removed &&
                            r.text == PunctMerger.WriteSrtFile(PunctMerger.MergeSubtitles(p.value).value))
  {
    var p := PunctMerger.ParseSrtFile(content);
    if p.Ok? {
      Finish5Fixed(PunctMerger.MergeSubtitles(p.value), base);
    }
  }
}
