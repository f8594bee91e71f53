/**
 * `convert_merge_to_mp3`: every `*.merge4.srt` file in the storage folder is
 * read aloud into `<video id>.mp3` next to it.  The speech synthesis is an
 * outside program; whether it succeeds for a file is a parameter.
 */
module Mp3Names {
  import opened Text
  import opened PathNames

  const Merge4Srt: string := ".merge4.srt"
  const Merge4: string := ".merge4"

  /** `Path.glob("*.merge4.srt")` lists the name: `pathlib`'s `*` also matches a leading dot. */
  predicate Listed(name: string) {
    EndsWith(name, Merge4Srt)
  }

  /** The base name `convert_to_mp3` gives the output. */
  function BaseName(name: string): (r: string)
    ensures Listed(name) ==> !HasChar(r, '.')
  {
    if Listed(name) then FirstPiece(ReplaceAll(name, Merge4Srt, ""), '.')
    else ReplaceAll(Stem(name), Merge4, "")
  }

  /** `<base>.mp3`. */
  function Mp3Name(name: string): (r: string)
    ensures EndsWith(r, ".mp3")
  {
    EndsWithAppend(BaseName(name), ".mp3");
    BaseName(name) + ".mp3"
  }

  /** Two occurrences of `.merge4.srt` never overlap. */
  lemma Merge4SrtNoBorder()
    ensures NoBorder(Merge4Srt)
  {
    forall m | 0 < m < |Merge4Srt| ensures Merge4Srt[m..] != Merge4Srt[..|Merge4Srt| - m] {
      assert Merge4Srt[m..][|Merge4Srt| - m - 1] == 't';
      assert Merge4Srt[..|Merge4Srt| - m][|Merge4Srt| - m - 1] != 't';
    }
  }

  /** Two occurrences of `.merge4` never overlap. */
  lemma Merge4NoBorder()
    ensures NoBorder(Merge4)
  {
    forall m | 0 < m < |Merge4| ensures Merge4[m..] != Merge4[..|Merge4| - m] {
      assert Merge4[m..][|Merge4| - m - 1] == '4';
      assert Merge4[..|Merge4| - m][|Merge4| - m - 1] != '4';
    }
  }

  /** Nothing before the first `c` of `a + [c] + b` holds `c`: that part is the first piece. */
  lemma FirstPieceOf(a: string, c: char, b: string)
    requires !HasChar(a, c)
    ensures FirstPiece(a + [c] + b, c) == a
  {
    var s := a + [c] + b;
    var r := FirstPiece(s, c);
    FirstPieceSpec(s, c);
    assert s[|a|] == c;
    assert s[..|a|] == a;
  }

  /** A listed name with one `.merge4.srt`: the output is named after what precedes its first dot. */
  lemma BaseNameOfListed(base: string)
    requires !Contains(base, Merge4Srt)
    ensures BaseName(base + Merge4Srt) == FirstPiece(base, '.')
  {
    EndsWithAppend(base, Merge4Srt);
    Merge4SrtNoBorder();
    ReplaceTail(base, Merge4Srt, "");
    assert ReplaceAll(base + Merge4Srt, Merge4Srt, "") == base;
  }

  /** `<id>.<lang>.merge4.srt` for a dot-free ID is read into `<id>.mp3`. */
  lemma Mp3OfVideo(id: string, lang: string)
    requires !HasChar(id, '.') && !Contains(id + "." + lang, Merge4Srt)
    ensures Mp3Name(id + "." + lang + Merge4Srt) == id + ".mp3"
  {
    BaseNameOfListed(id + "." + lang);
    FirstPieceOf(id, '.', lang);
  }

  /** All tracks of one video are read into the same file, so the last one converted wins. */
  lemma TracksShareMp3(id: string, lang1: string, lang2: string)
    requires !HasChar(id, '.')
    requires !Contains(id + "." + lang1, Merge4Srt) && !Contains(id + "." + lang2, Merge4Srt)
    ensures Mp3Name(id + "." + lang1 + Merge4Srt) == Mp3Name(id + "." + lang2 + Merge4Srt)
  {
    Mp3OfVideo(id, lang1);
    Mp3OfVideo(id, lang2);
  }

  /** A name the glob does not list, `<base>.merge4.<ext>`, loses its suffix and `.merge4` in the fallback. */
  lemma BaseNameFallback(base: string, ext: string)
    requires |base| > 0 && |ext| > 0 && !HasChar(ext, '.')
    requires !Contains(base, Merge4) && !Listed(base + Merge4 + "." + ext)
    ensures BaseName(base + Merge4 + "." + ext) == base
  {
    StemOfExt(base + Merge4, ext);
    Merge4NoBorder();
    ReplaceTail(base, Merge4, "");
  }

  /** The files `main` converts, in order: an `.mp3` is written exactly for a listed name whose synthesis succeeds. */
  function ConvertAll(names: seq<string>, ok: string -> bool): (r: seq<string>)
    ensures |r| <= |names|
    ensures forall out :: out in r <==> exists n :: n in names && Listed(n) && ok(n) && Mp3Name(n) == out
    decreases |names|
  {
    if |names| == 0 then []
    else
      var rest := ConvertAll(names[1..], ok);
      assert forall n :: n in names <==> n == names[0] || n in names[1..];
      if Listed(names[0]) && ok(names[0]) then [Mp3Name(names[0])] + rest else rest
  }

  /** The output of a listed name is `<base>.mp3` with a base free of dots. */
  lemma Mp3Plain(name: string)
    requires Listed(name)
    ensures var out := Mp3Name(name); EndsWith(out, ".mp3") && !HasChar(out[..|out| - 4], '.')
  {
    var b := BaseName(name);
    assert (b + ".mp3")[..|b|] == b;
  }

  /** Every output is `<base>.mp3` with a base free of dots. */
  lemma {:induction false} OutputsPlain(names: seq<string>, ok: string -> bool)
    ensures forall out :: out in ConvertAll(names, ok) ==> EndsWith(out, ".mp3") && !HasChar(out[..|out| - 4], '.')
    decreases |names|
  {
    if |names| > 0 {
      OutputsPlain(names[1..], ok);
      if Listed(names[0]) {
        Mp3Plain(names[0]);
      }
    }
  }
}
