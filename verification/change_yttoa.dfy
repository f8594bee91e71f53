/**
 * `convert_youtube_to_archive`: a YouTube link becomes the archive.org
 * download link of the video's `.ogg` audio.  The video ID is the group of
 * the first of four patterns that matches the stripped link; IDs that start
 * with `-` or `_` are renamed because archive.org identifiers must start
 * with a letter or digit.
 */
module YtToArchive {
  import opened Wrappers
  import opened Text
  import opened Scan

  const ShortPrefix: string := "https://youtu.be/"
  const ArchivePrefix: string := "https://archive.org/download/"

  /** Where the ID of a `watch?v=` link ends: the class `[^&\s]` excludes these. */
  predicate WatchStop(c: char) {
    c == '&' || IsSpace(c)
  }

  /** Where the ID of a `youtu.be/` link ends: the class `[^?&\s]` excludes these. */
  predicate ShortStop(c: char) {
    c == '?' || c == '&' || IsSpace(c)
  }

  /** The group of the first of the four patterns that finds something in the stripped link. */
  function VideoIdOf(url: string): (r: Option<string>)
    ensures r.Some? ==> |r.value| > 0
  {
    var s := Strip(url);
    var a := SearchRun(s, WatchPrefix, WatchStop);
    if a.Some? then a
    else
      var b := SearchRun(s, ShortPrefix, ShortStop);
      if b.Some? then b
      else
        var c := SearchRun(s, "youtube.com/watch?v=", WatchStop);
        if c.Some? then c else SearchRun(s, "youtu.be/", ShortStop)
  }

  /** `s.replace('-', '_')`. */
  function Underscored(s: string): (r: string)
    ensures |r| == |s|
    ensures forall i :: 0 <= i < |s| ==> r[i] == (if s[i] == '-' then '_' else s[i])
  {
    seq(|s|, i requires 0 <= i < |s| => if s[i] == '-' then '_' else s[i])
  }

  /** The archive.org item name of a video: never starts with `-` or `_`. */
  function Folder(id: string): (r: string)
    ensures |id| > 0 ==> |r| > 0 && r[0] != '-' && r[0] != '_'
    ensures |id| > 0 && id[0] == '-' ==> r == "a_" + Underscored(id)
    ensures |id| > 0 && id[0] == '_' ==> r == "a" + id
  {
    if StartsWith(id, "-") then "a_" + Underscored(id)
    else if StartsWith(id, "_") then "a" + id
    else id
  }

  /** The audio file name inside the item. */
  function FileName(id: string): (r: string)
    ensures EndsWith(r, ".ogg") && |r| == |id| + 4
  {
    (if StartsWith(id, "-") then Underscored(id) else id) + ".ogg"
  }

  /** The download link of a video's audio. */
  function ArchiveUrl(id: string): (r: string)
    ensures StartsWith(r, ArchivePrefix) && EndsWith(r, ".ogg")
  {
    var f := FileName(id);
    assert (ArchivePrefix + Folder(id) + "/" + f)[|ArchivePrefix + Folder(id) + "/"|..] == f;
    ArchivePrefix + Folder(id) + "/" + f
  }

  /** `convert_youtube_to_archive`: `None` when no pattern matches, else an `.ogg` link on archive.org. */
  function ToArchive(url: string): (r: Option<string>)
    ensures r.None? <==> VideoIdOf(url).None?
    ensures r.Some? ==> StartsWith(r.value, ArchivePrefix) && EndsWith(r.value, ".ogg")
  {
    match VideoIdOf(url)
    case None => None
    case Some(id) => Some(ArchiveUrl(id))
  }

  /** A character that can stand in a video ID of either link form and in an archive.org path segment. */
  predicate IdChar(c: char) {
    c != '&' && c != '?' && c != '/' && !IsSpace(c)
  }

  predicate ValidId(id: string) {
    |id| > 0 && forall i :: 0 <= i < |id| ==> IdChar(id[i])
  }

  /** A `youtu.be/` link holds no `https://www.youtube.com/watch?v=` occurrence: its third `/` would fall in the ID. */
  lemma NoWatchInShort(id: string, j: nat)
    requires ValidId(id)
    ensures !RunAt(ShortPrefix + id, j, WatchPrefix, WatchStop)
  {
    var s := ShortPrefix + id;
    if j + |WatchPrefix| < |s| {
      assert s[j + 23] == id[j + 6];
      assert WatchPrefix[23] == '/';
      assert s[j..j + |WatchPrefix|][23] == s[j + 23];
    }
  }

  /** A link made of a prefix and a valid ID is its own stripped form. */
  lemma StripLink(prefix: string, id: string)
    requires |prefix| > 0 && !IsSpace(prefix[0]) && ValidId(id)
    ensures Strip(prefix + id) == prefix + id
  {
    var s := prefix + id;
    assert s[0] == prefix[0] && s[|s| - 1] == id[|id| - 1];
    StripOfStripped(s);
  }

  /** Searching a link for its own prefix finds the whole ID, which holds no stop character. */
  lemma FindsId(prefix: string, id: string, stop: char -> bool)
    requires ValidId(id) && forall c :: stop(c) ==> !IdChar(c)
    ensures SearchRun(prefix + id, prefix, stop) == Some(id)
  {
    assert prefix + id == prefix + id + "";
    HeadRun(prefix, id, "", stop);
  }

  lemma WatchStopNotId()
    ensures forall c :: WatchStop(c) ==> !IdChar(c)
  {
  }

  lemma ShortStopNotId()
    ensures forall c :: ShortStop(c) ==> !IdChar(c)
  {
  }

  /** The `watch?v=` link of a valid ID maps to that ID's archive link. */
  lemma WatchForm(id: string)
    requires ValidId(id)
    ensures ToArchive(WatchPrefix + id) == Some(ArchiveUrl(id))
  {
    var s := WatchPrefix + id;
    WatchStopNotId();
    FindsId(WatchPrefix, id, WatchStop);
    StripLink(WatchPrefix, id);
    FirstPattern(s, id);
  }

  /** The second pattern decides the ID whenever the first finds nothing and it matches. */
  lemma SecondPattern(url: string, id: string)
    requires SearchRun(url, WatchPrefix, WatchStop) == None
    requires SearchRun(url, ShortPrefix, ShortStop) == Some(id)
    requires Strip(url) == url
    ensures ToArchive(url) == Some(ArchiveUrl(id))
  {
  }

  /** The first pattern decides the ID whenever it matches. */
  lemma FirstPattern(url: string, id: string)
    requires SearchRun(url, WatchPrefix, WatchStop) == Some(id)
    requires Strip(url) == url
    ensures ToArchive(url) == Some(ArchiveUrl(id))
  {
  }

  /** The `youtu.be/` link of a valid ID maps to that ID's archive link. */
  lemma ShortForm(id: string)
    requires ValidId(id)
    ensures ToArchive(ShortPrefix + id) == Some(ArchiveUrl(id))
  {
    var s := ShortPrefix + id;
    ShortStopNotId();
    FindsId(ShortPrefix, id, ShortStop);
    forall j: nat ensures !RunAt(s, j, WatchPrefix, WatchStop) {
      NoWatchInShort(id, j);
    }
    assert SearchRun(s, WatchPrefix, WatchStop) == None;
    StripLink(ShortPrefix, id);
    SecondPattern(s, id);
  }

  /** Both link forms of the same valid ID give the same archive link. */
  lemma SameTarget(id: string)
    requires ValidId(id)
    ensures ToArchive(WatchPrefix + id) == ToArchive(ShortPrefix + id) == Some(ArchiveUrl(id))
  {
    WatchForm(id);
    ShortForm(id);
  }
}
