/**
 * The subtitle-language choice both subtitle downloaders share, and the
 * file names it leads to: with an uploaded English track the Vietnamese
 * translation of that track is fetched and the file is marked `cleansub`;
 * otherwise the automatic Vietnamese track is fetched and left unmarked.
 */
module SubLang {
  import opened Wrappers
  import opened Text

  /** The language codes of the uploaded tracks, in the order the video info lists them. */
  type Langs = seq<string>

  /** `detect_user_english_sub`: the first code that starts with `en`. */
  function EnglishUserSub(langs: Langs): (r: Option<string>)
    ensures r.None? <==> forall i :: 0 <= i < |langs| ==> !StartsWith(langs[i], "en")
    ensures r.Some? ==> exists i :: 0 <= i < |langs| && langs[i] == r.value &&
                                    StartsWith(langs[i], "en") &&
                                    forall j :: 0 <= j < i ==> !StartsWith(langs[j], "en")
    decreases |langs|
  {
    if |langs| == 0 then None
    else if StartsWith(langs[0], "en") then Some(langs[0])
    else
      var r := EnglishUserSub(langs[1..]);
      assert forall j :: 1 <= j < |langs| ==> langs[j] == langs[1..][j - 1];
      r
  }

  /** What `choose_sub_lang` returns: the language asked for, and whether it translates an uploaded track. */
  datatype Choice = Choice(lang: string, user: bool)

  /** `choose_sub_lang`. */
  function ChooseSubLang(langs: Langs): (c: Choice)
    ensures c.user <==> exists i :: 0 <= i < |langs| && StartsWith(langs[i], "en")
    ensures !c.user ==> c.lang == "vi"
    ensures c.user ==> StartsWith(c.lang, "vi-en") && c.lang[3..] in langs
    ensures c.user ==> exists i :: 0 <= i < |langs| && c.lang == "vi-" + langs[i] && StartsWith(langs[i], "en") &&
                                   forall j :: 0 <= j < i ==> !StartsWith(langs[j], "en")
  {
    match EnglishUserSub(langs)
    case Some(en) =>
      assert ("vi-" + en)[3..] == en;
      assert forall k :: 0 <= k < 2 ==> ("vi-" + en)[3 + k] == en[k];
      Choice("vi-" + en, true)
    case None => Choice("vi", false)
  }

  /** The part of the file name between the video ID and `.srt`. */
  function Suffix(c: Choice): string {
    c.lang + (if c.user then ".cleansub" else "")
  }

  /** `<id>.<suffix>.srt`: the name the downloaded subtitle ends up with. */
  function FinalName(id: string, c: Choice): (r: string)
    ensures EndsWith(r, ".srt")
  {
    var r := id + "." + Suffix(c) + ".srt";
    assert r[|r| - 4..] == ".srt";
    r
  }

  /** `<id>.<lang>.srt`: the name the downloader writes the track under. */
  function RawName(id: string, c: Choice): (r: string)
    ensures EndsWith(r, ".srt")
  {
    var r := id + "." + c.lang + ".srt";
    assert r[|r| - 4..] == ".srt";
    r
  }

  const CleanTail: string := ".cleansub.srt"

  /** A final name ends with `.cleansub.srt` exactly when it holds the translation of an uploaded track. */
  lemma CleanTailIff(id: string, c: Choice)
    requires !c.user ==> c.lang == "vi"
    ensures EndsWith(FinalName(id, c), CleanTail) <==> c.user
  {
    var r := FinalName(id, c);
    if c.user {
      assert r == id + "." + c.lang + CleanTail;
      assert r[|r| - |CleanTail|..] == CleanTail;
    } else if |r| >= |CleanTail| {
      assert r == id + ".vi.srt";
      assert r[|r| - 7] == '.';
      assert r[|r| - |CleanTail|..][6] == r[|r| - 7];
    }
  }

  /** The track is written under its final name, needing no rename, exactly when it is not marked `cleansub`. */
  lemma RawIsFinalIff(id: string, c: Choice)
    ensures RawName(id, c) == FinalName(id, c) <==> !c.user
  {
    if c.user {
      assert |RawName(id, c)| < |FinalName(id, c)|;
    }
  }

  /** Together: the choice for a video with an uploaded English track leads to a `cleansub` file, and without one to `<id>.vi.srt`. */
  lemma ChoiceNames(id: string, langs: Langs)
    ensures var c := ChooseSubLang(langs);
            (EndsWith(FinalName(id, c), CleanTail) <==> exists i :: 0 <= i < |langs| && StartsWith(langs[i], "en")) &&
            (!c.user ==> FinalName(id, c) == RawName(id, c) == id + ".vi.srt")
  {
    var c := ChooseSubLang(langs);
    CleanTailIff(id, c);
    RawIsFinalIff(id, c);
  }
}
